/** What every run of workspace and module operations keeps: references between objects hold, and one module's
    operations leave the objects of every other module alone. */
module ModuleIntegrity {
  import opened Wrappers
  import opened ModuleLifecycle
  import opened ModuleProperties

  /******* Referential integrity *******/

  ghost predicate HasVolume(s: State, n: Name, v: Volume) {
    match v.source
    case FromClaim(claim) => v.name == claim && (n.0, claim) in s.claims && exists idx :: claim == VolumeName(n.1, idx)
    case FromConfigMap(name) => v.name == name == n.1 && n in s.configMaps
  }

  ghost predicate HasMount(s: State, n: Name, volumes: seq<Volume>, m: Mount) {
    exists v | v in volumes ::
      v.name == m.volume && (v.source.FromConfigMap? ==> n in s.configMaps && m.subPath in s.configMaps[n])
  }

  predicate DistinctNames(volumes: seq<Volume>) {
    forall i, j | 0 <= i < j < |volumes| :: volumes[i].name != volumes[j].name
  }

  /** A Deployment's namespace, Service, claims and ConfigMap exist, its volumes have distinct names, and each mount
      names one of them and, in a ConfigMap, a key that is there. */
  ghost predicate Intact(s: State, n: Name, d: Deployment) {
    && n.0 in s.namespaces && n in s.services
    && DistinctNames(d.volumes)
    && (forall v | v in d.volumes :: HasVolume(s, n, v))
    && (forall m | m in d.mounts :: HasMount(s, n, d.volumes, m))
  }

  ghost predicate Healthy(s: State) {
    forall n | n in s.deployments :: Intact(s, n, s.deployments[n])
  }

  /** Nothing that `n` refers to gets lost on the way from `s` to `t`. */
  ghost predicate Keeps(s: State, t: State, n: Name) {
    && (n.0 in s.namespaces ==> n.0 in t.namespaces)
    && (n in s.services ==> n in t.services)
    && (forall idx :: (n.0, VolumeName(n.1, idx)) in s.claims ==> (n.0, VolumeName(n.1, idx)) in t.claims)
    && (n in s.configMaps ==> n in t.configMaps && t.configMaps[n] == s.configMaps[n])
  }

  lemma KeptIntact(s: State, t: State, n: Name, d: Deployment)
    requires Intact(s, n, d) && Keeps(s, t, n)
    ensures Intact(t, n, d)
  {
    forall m | m in d.mounts ensures HasMount(t, n, d.volumes, m) {
      assert HasMount(s, n, d.volumes, m);
    }
  }

  lemma NewDeploymentVolumes(b: Build)
    ensures DistinctNames(DeploymentOf(b).volumes)
  {
    var volumes := DeploymentOf(b).volumes;
    forall i, j | 0 <= i < j < |volumes| ensures volumes[i].name != volumes[j].name {
      ModuleVolumes(b, i);
      ModuleVolumes(b, j);
      if j < |b.volumes| {
        if VolumeName(b.moduleId, i) == VolumeName(b.moduleId, j) {
          VolumeNameInjective(b.moduleId, i, b.moduleId, j);
        }
      } else {
        assert |VolumeName(b.moduleId, i)| > |b.moduleId|;
      }
    }
  }

  lemma NewDeploymentMount(project: string, s: State, b: Build, i: nat)
    requires i < |DeploymentOf(b).mounts|
    ensures HasMount(Added(project, s, b, Total(b)), ModuleName(project, b), DeploymentOf(b).volumes,
                     DeploymentOf(b).mounts[i])
  {
    var d, n := DeploymentOf(b), |b.volumes|;
    if i < n {
      ModuleVolumes(b, i);
      assert d.mounts[i] == ClaimMounts(b)[i];
      assert d.volumes[i] in d.volumes;
    } else {
      ModuleVolumes(b, n);
      assert d.mounts[i] == ConfigMounts(b)[i - n];
      assert FileKey(i - n) in ConfigData(b.configFiles);
      assert d.volumes[n] in d.volumes;
    }
  }

  lemma NewDeploymentIntact(project: string, s: State, b: Build)
    requires NS(project, b) in s.namespaces
    ensures Intact(Added(project, s, b, Total(b)), ModuleName(project, b), DeploymentOf(b))
  {
    var t, name, d := Added(project, s, b, Total(b)), ModuleName(project, b), DeploymentOf(b);
    NewDeploymentVolumes(b);
    forall v | v in d.volumes ensures HasVolume(t, name, v) {
      var i :| 0 <= i < |d.volumes| && d.volumes[i] == v;
      ModuleVolumes(b, i);
      if i < |b.volumes| {
        assert ClaimName(project, b, i) in NewClaims(project, b, |b.volumes|);
      }
    }
    forall m | m in d.mounts ensures HasMount(t, name, d.volumes, m) {
      var i :| 0 <= i < |d.mounts| && d.mounts[i] == m;
      NewDeploymentMount(project, s, b, i);
    }
  }

  /** After a successful run each volume is mounted where it was asked for with the claim that was asked for behind
      it, and each configuration file is found with its contents where it was asked for. */
  lemma MountsProvide(project: string, s: State, b: Build, i: nat)
    ensures |DeploymentOf(b).mounts| == |b.volumes| + |b.configFiles|
    ensures i < |b.volumes| ==>
              var m, t := DeploymentOf(b).mounts[i], Added(project, s, b, Total(b));
              && m.path == b.volumes[i].mountPath
              && (NS(project, b), m.volume) in t.claims && t.claims[(NS(project, b), m.volume)] == ClaimOf(b.volumes[i])
    ensures i < |b.configFiles| ==>
              var m, t := DeploymentOf(b).mounts[|b.volumes| + i], Added(project, s, b, Total(b));
              && m.path == b.configFiles[i].mountPath
              && (NS(project, b), m.volume) in t.configMaps && m.subPath in t.configMaps[(NS(project, b), m.volume)]
              && t.configMaps[(NS(project, b), m.volume)][m.subPath] == b.configFiles[i].data
  {
    if i < |b.volumes| {
      NewClaimAt(project, b, |b.volumes|, i);
    }
    if i < |b.configFiles| {
      ConfigDataAt(b.configFiles, i);
      assert FileKey(i) in ConfigData(b.configFiles);
      assert DeploymentOf(b).mounts[|b.volumes| + i] == ConfigMounts(b)[i];
    }
  }

  lemma RunKeeps(project: string, s: State, b: Build, rejects: nat -> bool, n: Name)
    ensures Keeps(s, Ran(project, s, b, rejects), n)
  {
    RunAddsPrefix(project, s, b, rejects, Progress(project, s, b, rejects, 0));
    var k := Progress(project, s, b, rejects, 0);
    if b.configFiles != [] && k > |b.volumes| {
      assert Free(project, s, b, |b.volumes|);
    }
  }

  /** A run keeps the cluster healthy whichever of its creations fails. */
  lemma {:induction false} RunKeepsHealth(project: string, s: State, b: Build, rejects: nat -> bool)
    requires Healthy(s)
    ensures Healthy(Ran(project, s, b, rejects))
  {
    var t, k := Ran(project, s, b, rejects), Progress(project, s, b, rejects, 0);
    forall n | n in t.deployments ensures Intact(t, n, t.deployments[n]) {
      if k == Total(b) && n == ModuleName(project, b) {
        assert Accepts(project, s, b, rejects, 0);
        NewDeploymentIntact(project, s, b);
      } else {
        RunKeeps(project, s, b, rejects, n);
        KeptIntact(s, t, n, s.deployments[n]);
      }
    }
  }

  /******* Disposing *******/

  /** The volumes of a Deployment are named after it, whether or not what they refer to exists. */
  ghost predicate OwnName(n: Name, v: Volume) {
    match v.source
    case FromClaim(_) => exists idx :: v.name == VolumeName(n.1, idx)
    case FromConfigMap(_) => v.name == n.1
  }

  ghost predicate Named(s: State) {
    forall n | n in s.deployments :: forall v | v in s.deployments[n].volumes :: OwnName(n, v)
  }

  lemma HealthyNamed(s: State)
    requires Healthy(s)
    ensures Named(s)
  {
    forall n, v | n in s.deployments && v in s.deployments[n].volumes ensures OwnName(n, v) {
      assert Intact(s, n, s.deployments[n]) && HasVolume(s, n, v);
    }
  }

  /** Everything that disposing of a module deletes was named after it. */
  lemma OwnClaims(s: State, n: Name, rejects: DisposeCall -> bool, c: Name)
    requires Named(s) && c in DeletedClaims(n.0, SeenVolumes(s, n, rejects), rejects)
    ensures c.0 == n.0 && exists idx :: c.1 == VolumeName(n.1, idx)
  {
    var volumes := SeenVolumes(s, n, rejects);
    var i: nat :|
      i < |volumes| && volumes[i].source.FromClaim? && !rejects(DeleteVolume(i)) && c == (n.0, volumes[i].name);
    assert volumes[i] in volumes && OwnName(n, volumes[i]);
  }

  lemma OwnConfigMap(s: State, n: Name, rejects: DisposeCall -> bool, c: Name)
    requires Named(s) && c in DeletedConfigMaps(n.0, SeenVolumes(s, n, rejects), rejects)
    ensures c == n
  {
    var volumes := SeenVolumes(s, n, rejects);
    var i: nat :|
      i < |volumes| && volumes[i].source.FromConfigMap? && !rejects(DeleteVolume(i)) && c == (n.0, volumes[i].name);
    assert volumes[i] in volumes && OwnName(n, volumes[i]);
  }

  lemma OtherClaimStays(s: State, n: Name, rejects: DisposeCall -> bool, other: Name, idx: nat)
    requires Named(s) && other != n
    ensures (other.0, VolumeName(other.1, idx)) !in DeletedClaims(n.0, SeenVolumes(s, n, rejects), rejects)
  {
    var c := (other.0, VolumeName(other.1, idx));
    if c in DeletedClaims(n.0, SeenVolumes(s, n, rejects), rejects) {
      OwnClaims(s, n, rejects, c);
      var j :| c.1 == VolumeName(n.1, j);
      VolumeNameInjective(other.1, idx, n.1, j);
    }
  }

  lemma OtherConfigMapStays(s: State, n: Name, rejects: DisposeCall -> bool, other: Name)
    requires Named(s) && other != n
    ensures other !in DeletedConfigMaps(n.0, SeenVolumes(s, n, rejects), rejects)
  {
    if other in DeletedConfigMaps(n.0, SeenVolumes(s, n, rejects), rejects) {
      OwnConfigMap(s, n, rejects, other);
    }
  }

  lemma DisposeKeeps(s: State, n: Name, rejects: DisposeCall -> bool, other: Name)
    requires Named(s) && other != n
    ensures Keeps(s, Disposed(s, n, rejects), other)
  {
    forall idx
      ensures (other.0, VolumeName(other.1, idx)) !in DeletedClaims(n.0, SeenVolumes(s, n, rejects), rejects)
    {
      OtherClaimStays(s, n, rejects, other, idx);
    }
    OtherConfigMapStays(s, n, rejects, other);
  }

  /** Which rejections of its calls a dispose survives without breaking a reference. */
  predicate Harmless(s: State, n: Name, rejects: DisposeCall -> bool) {
    || n !in s.deployments || !rejects(DeleteDeployment)
    || (rejects(DeleteService) && forall i | 0 <= i < |SeenVolumes(s, n, rejects)| :: rejects(DeleteVolume(i)))
  }

  /** Of all the calls of a dispose, only deleting the Deployment matters for the cluster's health: the cluster stays
      healthy exactly if the Deployment is gone afterwards, or nothing at all was deleted. */
  lemma DisposeKeepsHealthIff(s: State, n: Name, rejects: DisposeCall -> bool)
    requires Healthy(s)
    ensures Healthy(Disposed(s, n, rejects)) <==> Harmless(s, n, rejects)
  {
    HealthyNamed(s);
    var t, volumes := Disposed(s, n, rejects), SeenVolumes(s, n, rejects);
    forall other | other in t.deployments && other != n ensures Intact(t, other, t.deployments[other]) {
      DisposeKeeps(s, n, rejects, other);
      KeptIntact(s, t, other, s.deployments[other]);
    }
    if n in t.deployments {
      if rejects(DeleteService) {
        if forall i | 0 <= i < |volumes| :: rejects(DeleteVolume(i)) {
          assert Keeps(s, t, n);
          KeptIntact(s, t, n, s.deployments[n]);
        } else {
          var i: nat :| i < |volumes| && !rejects(DeleteVolume(i));
          DeletedVolume(s, n, rejects, i);
        }
      } else {
        assert !Intact(t, n, t.deployments[n]);
      }
    }
  }

  lemma DeletedVolume(s: State, n: Name, rejects: DisposeCall -> bool, i: nat)
    requires Healthy(s) && i < |SeenVolumes(s, n, rejects)| && !rejects(DeleteVolume(i)) && n in s.deployments
    ensures !Intact(Disposed(s, n, rejects), n, s.deployments[n])
  {
    var v := SeenVolumes(s, n, rejects)[i];
    assert v in s.deployments[n].volumes && HasVolume(s, n, v);
    if v.source.FromClaim? {
      assert (n.0, v.name) in DeletedClaims(n.0, SeenVolumes(s, n, rejects), rejects);
    } else {
      assert (n.0, v.name) in DeletedConfigMaps(n.0, SeenVolumes(s, n, rejects), rejects);
    }
    assert !HasVolume(Disposed(s, n, rejects), n, v);
  }

  /** If the API server rejects the deletion of a Deployment, the rest of the dispose takes away its Service. */
  lemma RejectedDeletionExample() returns (s: State, n: Name, rejects: DisposeCall -> bool)
    ensures Healthy(s) && !Healthy(Disposed(s, n, rejects))
  {
    n := ("project-batch", "module");
    s := State({n.0}, map[], map[], {n}, map[n := Deployment([], [])]);
    rejects := (c: DisposeCall) => c == DeleteDeployment;
    assert Intact(s, n, s.deployments[n]);
    DisposeKeepsHealthIff(s, n, rejects);
  }

  /******* Runs of operations *******/

  datatype Operation = Prepare(batch: string, rejected: bool)
                     | Run(build: Build, rejectsCreate: nat -> bool)
                     | Dispose(batch: string, moduleId: string, rejectsCall: DisposeCall -> bool)
                     | Purge(batch: string, rejected: bool)

  function Step(project: string, s: State, op: Operation): State {
    match op
    case Prepare(batch, rejected) => Prepared(s, NamespaceOf(project, batch), rejected)
    case Run(build, rejects) => Ran(project, s, build, rejects)
    case Dispose(batch, moduleId, rejects) => Disposed(s, (NamespaceOf(project, batch), moduleId), rejects)
    case Purge(batch, rejected) => if rejected then s else Purged(s, NamespaceOf(project, batch))
  }

  function After(project: string, s: State, ops: seq<Operation>): State
    decreases |ops|
  {
    if ops == [] then s else After(project, Step(project, s, ops[0]), ops[1..])
  }

  lemma PurgeKeeps(s: State, ns: string, n: Name)
    requires n.0 != ns
    ensures Keeps(s, Purged(s, ns), n)
  {
  }

  predicate HarmlessStep(project: string, s: State, op: Operation) {
    op.Dispose? ==> Harmless(s, (NamespaceOf(project, op.batch), op.moduleId), op.rejectsCall)
  }

  /** One operation keeps a cluster healthy exactly if it is not a dispose that does harm. */
  lemma StepKeepsHealthIff(project: string, s: State, op: Operation)
    requires Healthy(s)
    ensures Healthy(Step(project, s, op)) <==> HarmlessStep(project, s, op)
  {
    var t := Step(project, s, op);
    match op
    case Run(build, rejects) => RunKeepsHealth(project, s, build, rejects);
    case Dispose(batch, moduleId, rejects) =>
      DisposeKeepsHealthIff(s, (NamespaceOf(project, batch), moduleId), rejects);
    case Prepare(batch, rejected) =>
      forall n | n in t.deployments ensures Intact(t, n, t.deployments[n]) {
        KeptIntact(s, t, n, s.deployments[n]);
      }
    case Purge(batch, rejected) =>
      if !rejected {
        forall n | n in t.deployments ensures Intact(t, n, t.deployments[n]) {
          PurgeKeeps(s, NamespaceOf(project, batch), n);
          KeptIntact(s, t, n, s.deployments[n]);
        }
      }
  }

  /** The cluster is healthy at every moment of a run. */
  ghost predicate AlwaysHealthy(project: string, s: State, ops: seq<Operation>)
    decreases |ops|
  {
    Healthy(s) && (ops == [] || AlwaysHealthy(project, Step(project, s, ops[0]), ops[1..]))
  }

  /** No dispose of a run does harm in the state that it meets. */
  predicate AllHarmless(project: string, s: State, ops: seq<Operation>)
    decreases |ops|
  {
    ops == [] || (HarmlessStep(project, s, ops[0]) && AllHarmless(project, Step(project, s, ops[0]), ops[1..]))
  }

  /** A run keeps the cluster healthy throughout exactly if each of its disposes is harmless. */
  lemma {:induction false} RunsKeepHealthIff(project: string, s: State, ops: seq<Operation>)
    requires Healthy(s)
    ensures AlwaysHealthy(project, s, ops) <==> AllHarmless(project, s, ops)
    decreases |ops|
  {
    if ops != [] {
      StepKeepsHealthIff(project, s, ops[0]);
      if HarmlessStep(project, s, ops[0]) {
        RunsKeepHealthIff(project, Step(project, s, ops[0]), ops[1..]);
      }
    }
  }

  /** Deleting a Deployment fails only if it is absent. */
  predicate DeletesDeployment(op: Operation) {
    op.Dispose? ==> !op.rejectsCall(DeleteDeployment)
  }

  /** So it is over every run in which only absent Deployments cannot be deleted, whatever else is rejected. */
  lemma {:induction false} RunsKeepHealth(project: string, s: State, ops: seq<Operation>)
    requires Healthy(s) && forall i | 0 <= i < |ops| :: DeletesDeployment(ops[i])
    ensures AlwaysHealthy(project, s, ops) && Healthy(After(project, s, ops))
    decreases |ops|
  {
    if ops != [] {
      StepKeepsHealthIff(project, s, ops[0]);
      RunsKeepHealth(project, Step(project, s, ops[0]), ops[1..]);
    }
  }

  /******* Names *******/

  /** Whatever is rejected, no operation makes a Deployment whose volumes are named after something else. */
  lemma StepNamed(project: string, s: State, op: Operation)
    requires Named(s)
    ensures Named(Step(project, s, op))
  {
    var t := Step(project, s, op);
    if op.Run? {
      forall n, v | n in t.deployments && v in t.deployments[n].volumes ensures OwnName(n, v) {
        if n == ModuleName(project, op.build) && t.deployments[n] == DeploymentOf(op.build) {
          var i :| 0 <= i < |t.deployments[n].volumes| && t.deployments[n].volumes[i] == v;
          ModuleVolumes(op.build, i);
        }
      }
    }
  }

  lemma {:induction false} RunsNamed(project: string, s: State, ops: seq<Operation>)
    requires Named(s)
    ensures Named(After(project, s, ops))
    decreases |ops|
  {
    if ops != [] {
      StepNamed(project, s, ops[0]);
      RunsNamed(project, Step(project, s, ops[0]), ops[1..]);
    }
  }

  /******* Isolation *******/

  function At<K(==), V>(m: map<K, V>, k: K): Option<V> {
    if k in m then Some(m[k]) else None
  }

  /** Every object that the module `n` can have is the same in both states. */
  ghost predicate SameModule(s: State, t: State, n: Name) {
    && (n.0 in s.namespaces <==> n.0 in t.namespaces)
    && (n in s.services <==> n in t.services)
    && At(s.deployments, n) == At(t.deployments, n)
    && At(s.configMaps, n) == At(t.configMaps, n)
    && forall idx {:trigger VolumeName(n.1, idx)} ::
         At(s.claims, (n.0, VolumeName(n.1, idx))) == At(t.claims, (n.0, VolumeName(n.1, idx)))
  }

  lemma OtherClaim(project: string, b: Build, n: Name, idx: nat, m: nat)
    requires n != ModuleName(project, b) && m <= |b.volumes|
    ensures (n.0, VolumeName(n.1, idx)) !in NewClaims(project, b, m)
  {
    var c := (n.0, VolumeName(n.1, idx));
    if c in NewClaims(project, b, m) {
      var i: nat :| i < m && ClaimName(project, b, i) == c;
      VolumeNameInjective(n.1, idx, b.moduleId, i);
    }
  }

  lemma RunLeavesOthers(project: string, s: State, b: Build, rejects: nat -> bool, n: Name)
    requires n != ModuleName(project, b)
    ensures SameModule(s, Ran(project, s, b, rejects), n)
  {
    var t, k := Ran(project, s, b, rejects), Progress(project, s, b, rejects, 0);
    var m := if k < |b.volumes| then k else |b.volumes|;
    forall idx ensures At(s.claims, (n.0, VolumeName(n.1, idx))) == At(t.claims, (n.0, VolumeName(n.1, idx))) {
      OtherClaim(project, b, n, idx, m);
    }
  }

  lemma DisposeLeavesOthers(s: State, n: Name, rejects: DisposeCall -> bool, other: Name)
    requires Named(s) && other != n
    ensures SameModule(s, Disposed(s, n, rejects), other)
  {
    forall idx
      ensures (other.0, VolumeName(other.1, idx)) !in DeletedClaims(n.0, SeenVolumes(s, n, rejects), rejects)
    {
      OtherClaimStays(s, n, rejects, other, idx);
    }
    OtherConfigMapStays(s, n, rejects, other);
  }

  /** What an operation is about: one module, or a whole batch. */
  predicate Concerns(op: Operation, batch: string, moduleId: string) {
    match op
    case Prepare(b, _) => b == batch
    case Run(build, _) => build.batch == batch && build.moduleId == moduleId
    case Dispose(b, m, _) => b == batch && m == moduleId
    case Purge(b, _) => b == batch
  }

  /** An operation about something else leaves every object of a module as it was, whichever of its calls fail. */
  lemma StepLeavesOthers(project: string, s: State, op: Operation, batch: string, moduleId: string)
    requires Named(s) && !Concerns(op, batch, moduleId)
    ensures SameModule(s, Step(project, s, op), (NamespaceOf(project, batch), moduleId))
  {
    var n := (NamespaceOf(project, batch), moduleId);
    match op
    case Prepare(b, _) =>
      if NamespaceOf(project, b) == n.0 {
        NamespaceInjective(project, b, batch);
      }
    case Run(build, rejects) =>
      if ModuleName(project, build) == n {
        NamespaceInjective(project, build.batch, batch);
      }
      RunLeavesOthers(project, s, build, rejects, n);
    case Dispose(b, m, rejects) =>
      if (NamespaceOf(project, b), m) == n {
        NamespaceInjective(project, b, batch);
      }
      DisposeLeavesOthers(s, (NamespaceOf(project, b), m), rejects, n);
    case Purge(b, _) =>
      if NamespaceOf(project, b) == n.0 {
        NamespaceInjective(project, b, batch);
      }
  }

  ghost predicate NoneConcerns(ops: seq<Operation>, batch: string, moduleId: string) {
    forall i | 0 <= i < |ops| :: !Concerns(ops[i], batch, moduleId)
  }

  /** So do any number of such operations. */
  lemma {:induction false} RunsLeaveOthers(project: string, s: State, ops: seq<Operation>,
                                           batch: string, moduleId: string)
    requires Named(s) && NoneConcerns(ops, batch, moduleId)
    ensures SameModule(s, After(project, s, ops), (NamespaceOf(project, batch), moduleId))
    decreases |ops|
  {
    if ops != [] {
      StepLeavesOthers(project, s, ops[0], batch, moduleId);
      StepNamed(project, s, ops[0]);
      RunsLeaveOthers(project, Step(project, s, ops[0]), ops[1..], batch, moduleId);
    }
  }

  /** What a dispose does to a module depends on that module's objects alone. */
  lemma DisposeDependsOnModule(s: State, t: State, n: Name, rejects: DisposeCall -> bool)
    requires SameModule(s, t, n)
    ensures SameModule(Disposed(s, n, rejects), Disposed(t, n, rejects), n)
  {
    var volumes := SeenVolumes(s, n, rejects);
    assert volumes == SeenVolumes(t, n, rejects);
    var claims, s', t' := DeletedClaims(n.0, volumes, rejects), Disposed(s, n, rejects), Disposed(t, n, rejects);
    forall idx ensures At(s'.claims, (n.0, VolumeName(n.1, idx))) == At(t'.claims, (n.0, VolumeName(n.1, idx))) {
      var c := (n.0, VolumeName(n.1, idx));
      assert At(s.claims, c) == At(t.claims, c);
    }
  }

  /** However much is done about other modules before it, a dispose leaves a module as it would have at once. */
  lemma LaterDispose(project: string, s: State, ops: seq<Operation>, batch: string, moduleId: string,
                     rejects: DisposeCall -> bool)
    requires Named(s) && NoneConcerns(ops, batch, moduleId)
    ensures var n := (NamespaceOf(project, batch), moduleId);
            SameModule(Disposed(s, n, rejects), Disposed(After(project, s, ops), n, rejects), n)
  {
    RunsLeaveOthers(project, s, ops, batch, moduleId);
    DisposeDependsOnModule(s, After(project, s, ops), (NamespaceOf(project, batch), moduleId), rejects);
  }

  /** Running a module and disposing of it later leaves it as it was, however much other modules do in between. */
  lemma {:induction false} RunLaterDispose(project: string, s: State, b: Build, ops: seq<Operation>)
    requires Named(s) && AllFree(project, s, b) && NoneConcerns(ops, b.batch, b.moduleId)
    ensures var name := ModuleName(project, b);
            var t := After(project, Ran(project, s, b, (i: nat) => false), ops);
            SameModule(s, Disposed(t, name, (c: DisposeCall) => false), name)
  {
    RunSucceeds(project, s, b);
    StepNamed(project, s, Run(b, (i: nat) => false));
    LaterDispose(project, Ran(project, s, b, (i: nat) => false), ops, b.batch, b.moduleId, (c: DisposeCall) => false);
    RunThenDispose(project, s, b);
  }

  /******* A dispose after a failed run *******/

  lemma HeldClaims(s: State, n: Name, rejects: DisposeCall -> bool)
    requires Healthy(s)
    ensures DeletedClaims(n.0, SeenVolumes(s, n, rejects), rejects) <= s.claims.Keys
    ensures DeletedConfigMaps(n.0, SeenVolumes(s, n, rejects), rejects) <= s.configMaps.Keys
  {
    var volumes := SeenVolumes(s, n, rejects);
    forall v | v in volumes ensures HasVolume(s, n, v) {
      assert Intact(s, n, s.deployments[n]);
    }
    forall i: nat | i < |volumes| ensures HasVolume(s, n, volumes[i]) {
      assert volumes[i] in volumes;
    }
  }

  /** In a healthy cluster, where no Deployment refers to what a run is still to create, a dispose after a failed run
      does what it would have done before the run, and of what the run created only the Service is gone. */
  lemma HealthyFailedRun(project: string, s: State, b: Build, rejects: nat -> bool)
    requires Healthy(s) && Progress(project, s, b, rejects, 0) < Total(b)
    ensures var name, never := ModuleName(project, b), (c: DisposeCall) => false;
            Disposed(Ran(project, s, b, rejects), name, never)
            == Added(project, Disposed(s, name, never), b, Stranded(b, Progress(project, s, b, rejects, 0)))
  {
    hide Progress, NewClaims, ConfigData, DeletedClaims, DeletedConfigMaps;
    var name, never := ModuleName(project, b), (c: DisposeCall) => false;
    var k := Progress(project, s, b, rejects, 0);
    RunAddsPrefix(project, s, b, rejects, k);
    var volumes := SeenVolumes(s, name, never);
    assert SeenVolumes(Ran(project, s, b, rejects), name, never) == volumes;
    var m := if k < |b.volumes| then k else |b.volumes|;
    var configMaps := DeletedConfigMaps(name.0, volumes, never);
    HeldClaims(s, name, never);
    forall i: nat | i < m ensures ClaimName(project, b, i) !in s.claims {
      assert Free(project, s, b, i);
    }
    RemovedTwice(s.claims, NewClaims(project, b, m), DeletedClaims(name.0, volumes, never));
    if b.configFiles != [] && k > |b.volumes| {
      assert Free(project, s, b, |b.volumes|);
      RemovedTwice(s.configMaps, map[name := ConfigData(b.configFiles)], configMaps);
      SetIsUnion(s.configMaps, name, ConfigData(b.configFiles));
      SetIsUnion(s.configMaps - configMaps, name, ConfigData(b.configFiles));
    }
  }

  /** However much other modules do in between, a dispose after a failed run leaves of the module what it would have
      left at once. */
  lemma FailedRunLaterDispose(project: string, s: State, b: Build, rejects: nat -> bool, ops: seq<Operation>)
    requires Named(s) && Progress(project, s, b, rejects, 0) < Total(b) && NoneConcerns(ops, b.batch, b.moduleId)
    ensures var k, name := Progress(project, s, b, rejects, 0), ModuleName(project, b);
            var never := (c: DisposeCall) => false;
            && var left := Added(project, Disposed(s, name, never), b, Stranded(b, k));
            SameModule(WithoutVolumes(left, name.0, SeenVolumes(s, name, never), never),
                       Disposed(After(project, Ran(project, s, b, rejects), ops), name, never), name)
  {
    hide Progress, Added, WithoutVolumes;
    StepNamed(project, s, Run(b, rejects));
    FailedRunThenDispose(project, s, b, Progress(project, s, b, rejects, 0));
    LaterDispose(project, Ran(project, s, b, rejects), ops, b.batch, b.moduleId, (c: DisposeCall) => false);
  }

  /** A later run after a failed one and a dispose in a healthy cluster gets as far as without the failed run, or to
      the first object that was stranded. */
  lemma HealthyRetry(project: string, s: State, b: Build, rejects: nat -> bool, later: Build, rejectsLater: nat -> bool)
    requires Healthy(s) && Progress(project, s, b, rejects, 0) < Total(b)
    requires later.batch == b.batch && later.moduleId == b.moduleId
    ensures var k, name := Progress(project, s, b, rejects, 0), ModuleName(project, b);
            var never := (c: DisposeCall) => false;
            Progress(project, Disposed(Ran(project, s, b, rejects), name, never), later, rejectsLater, 0)
            == Min(Progress(project, Disposed(s, name, never), later, rejectsLater, 0),
                   FirstBlocked(b, Stranded(b, k), later))
  {
    hide Progress, Added, Disposed;
    HealthyFailedRun(project, s, b, rejects);
    StrandedProgress(project, Disposed(s, ModuleName(project, b), (c: DisposeCall) => false), b,
                     Stranded(b, Progress(project, s, b, rejects, 0)), later, rejectsLater);
  }
}
