/** The chaos monkey's master worker: one loop that mirrors the cluster from events and carries out commands. */
module Boogeyman {
  /******* Commands and events *******/

  datatype Kind = DEPLOYMENT | PVC | POD

  datatype Event = Added(name: string) | Deleted(name: string) | Modified(name: string)

  /** What goes over the command channel: the clients' commands, and the watchers' updates. */
  datatype Command = CreatePvc(pvcName: string, pvcSize: int)
                   | Deploy(name: string, replicas: int, sharedPvc: string, pvcSize: int)
                   | DeleteAllPods(force: bool)
                   | DeleteRandomPod(force: bool, instances: int)
                   | DeleteAllDeployments(force: bool)
                   | DeleteRandomDeployment(force: bool)
                   | Update(kind: Kind, event: Event)

  /** A call to the API server. A Deployment names the claim that its pods mount. */
  datatype Call = CreateClaim(name: string, size: int)
                | CreateDeployment(name: string, replicas: int, claim: string)
                | Delete(kind: Kind, name: string, force: bool)

  /** The worker's sets. */
  datatype Mirrors = Mirrors(deployments: set<string>, pvcs: set<string>, pods: set<string>)

  function Of(m: Mirrors, k: Kind): set<string> {
    match k
    case DEPLOYMENT => m.deployments
    case PVC => m.pvcs
    case POD => m.pods
  }

  function With(m: Mirrors, k: Kind, names: set<string>): (changed: Mirrors)
    ensures Of(changed, k) == names && forall other | other != k :: Of(changed, other) == Of(m, other)
  {
    match k
    case DEPLOYMENT => m.(deployments := names)
    case PVC => m.(pvcs := names)
    case POD => m.(pods := names)
  }

  function Apply(names: set<string>, e: Event): set<string> {
    match e
    case Added(n) => names + {n}
    case Deleted(n) => names - {n}
    case Modified(_) => names
  }

  /** Only updates change the sets. */
  function Handle(m: Mirrors, cmd: Command): Mirrors {
    match cmd
    case Update(k, e) => With(m, k, Apply(Of(m, k), e))
    case _ => m
  }

  /** An update's name is added to the set of its kind or taken out of it; the other sets stay as they are. */
  lemma Updated(m: Mirrors, name: string)
    ensures Handle(m, Update(DEPLOYMENT, Added(name))) == m.(deployments := m.deployments + {name})
    ensures Handle(m, Update(DEPLOYMENT, Deleted(name))) == m.(deployments := m.deployments - {name})
    ensures Handle(m, Update(PVC, Added(name))) == m.(pvcs := m.pvcs + {name})
    ensures Handle(m, Update(PVC, Deleted(name))) == m.(pvcs := m.pvcs - {name})
    ensures Handle(m, Update(POD, Added(name))) == m.(pods := m.pods + {name})
    ensures Handle(m, Update(POD, Deleted(name))) == m.(pods := m.pods - {name})
    ensures forall k :: Handle(m, Update(k, Modified(name))) == m
  {
  }

  /** `rand.Intn(0)` panics, and with it the program. */
  predicate Panics(m: Mirrors, cmd: Command) {
    match cmd
    case DeleteRandomPod(_, instances) => instances > 0 && m.pods == {}
    case DeleteRandomDeployment(_) => m.deployments == {}
    case _ => false
  }

  /** One deletion for each name, in any order. */
  predicate DeletesEach(k: Kind, names: set<string>, force: bool, calls: seq<Call>) {
    && |calls| == |names|
    && (forall c | c in calls :: c.Delete? && c.kind == k && c.name in names && c.force == force)
    && (forall n | n in names :: Delete(k, n, force) in calls)
  }

  predicate DeletesSome(k: Kind, names: set<string>, force: bool, calls: seq<Call>) {
    forall c | c in calls :: c.Delete? && c.kind == k && c.name in names && c.force == force
  }

  /** The calls that a command may make, the random choices being free. */
  predicate Makes(m: Mirrors, cmd: Command, calls: seq<Call>) {
    match cmd
    case CreatePvc(pvc, size) => calls == [CreateClaim(pvc, size)]
    case Deploy(name, replicas, pvc, size) =>
      if pvc == ""
      then calls == [CreateClaim(name + "-claim", size),
                     CreateDeployment(name + "-deployment", replicas, name + "-claim")]
      else calls == [CreateDeployment(name + "-deployment", replicas, pvc)]
    case DeleteAllPods(force) => DeletesEach(POD, m.pods, force, calls)
    case DeleteRandomPod(force, instances) =>
      |calls| == (if instances > 0 then instances else 0) && DeletesSome(POD, m.pods, force, calls)
    case DeleteAllDeployments(force) =>
      && |calls| == |m.deployments| + |m.pvcs|
      && DeletesEach(DEPLOYMENT, m.deployments, force, calls[..|m.deployments|])
      && DeletesEach(PVC, m.pvcs, force, calls[|m.deployments|..])
    case DeleteRandomDeployment(force) => |calls| == 1 && DeletesSome(DEPLOYMENT, m.deployments, force, calls)
    case Update(_, _) => calls == []
  }

  lemma EachDeleted(k: Kind, names: set<string>, force: bool, calls: seq<Call>)
    requires DeletesEach(k, names, force, calls)
    ensures |calls| == |names|
    ensures forall c :: c in calls <==> c.Delete? && c.kind == k && c.force == force && c.name in names
  {
  }

  /** Deleting all pods is one deletion for each pod of the set and no other call. */
  lemma PodsDeleted(m: Mirrors, force: bool, calls: seq<Call>)
    requires Makes(m, DeleteAllPods(force), calls)
    ensures |calls| == |m.pods|
    ensures forall c :: c in calls <==> c.Delete? && c.kind == POD && c.force == force && c.name in m.pods
  {
    hide DeletesEach;
    EachDeleted(POD, m.pods, force, calls);
  }

  /** Deleting all Deployments is one deletion for each of them, and then one for each claim. */
  lemma DeploymentsDeleted(m: Mirrors, force: bool, calls: seq<Call>)
    requires Makes(m, DeleteAllDeployments(force), calls)
    ensures |calls| == |m.deployments| + |m.pvcs|
    ensures forall c :: c in calls[..|m.deployments|] <==>
              c.Delete? && c.kind == DEPLOYMENT && c.force == force && c.name in m.deployments
    ensures forall c :: c in calls[|m.deployments|..] <==>
              c.Delete? && c.kind == PVC && c.force == force && c.name in m.pvcs
  {
    hide Makes, DeletesEach;
    BothDeleted(m, force, calls);
    EachDeleted(DEPLOYMENT, m.deployments, force, calls[..|m.deployments|]);
    EachDeleted(PVC, m.pvcs, force, calls[|m.deployments|..]);
  }

  lemma BothDeleted(m: Mirrors, force: bool, calls: seq<Call>)
    requires Makes(m, DeleteAllDeployments(force), calls)
    ensures |calls| == |m.deployments| + |m.pvcs|
    ensures DeletesEach(DEPLOYMENT, m.deployments, force, calls[..|m.deployments|])
    ensures DeletesEach(PVC, m.pvcs, force, calls[|m.deployments|..])
  {
  }

  /** Random deletions are of names in the set, as many as were asked for. */
  lemma ChosenDeleted(m: Mirrors, force: bool, instances: int, calls: seq<Call>)
    ensures Makes(m, DeleteRandomPod(force, instances), calls) ==>
              && |calls| == (if instances < 0 then 0 else instances)
              && forall c | c in calls :: c.Delete? && c.kind == POD && c.force == force && c.name in m.pods
    ensures Makes(m, DeleteRandomDeployment(force), calls) ==>
              exists n | n in m.deployments :: calls == [Delete(DEPLOYMENT, n, force)]
  {
    hide DeletesEach;
    if Makes(m, DeleteRandomDeployment(force), calls) {
      assert calls[0] in calls && calls == [Delete(DEPLOYMENT, calls[0].name, force)];
    }
  }

  /** Deploying without a shared claim is creating a claim and deploying with it. */
  lemma DeployCalls(m: Mirrors, name: string, replicas: int, size: int, claim: string, calls: seq<Call>)
    requires claim != ""
    ensures Makes(m, Deploy(name, replicas, claim, size), calls)
       <==> calls == [CreateDeployment(name + "-deployment", replicas, claim)]
    ensures Makes(m, Deploy(name, replicas, "", size), calls)
       <==> |calls| == 2 && Makes(m, CreatePvc(name + "-claim", size), calls[..1])
            && Makes(m, Deploy(name, replicas, name + "-claim", size), calls[1..])
    ensures Makes(m, CreatePvc(claim, size), calls) <==> calls == [CreateClaim(claim, size)]
  {
    if |calls| == 2 {
      assert calls == calls[..1] + calls[1..];
    }
  }

  /** How many of the commands are carried out before one panics. */
  function Completed(m: Mirrors, cmds: seq<Command>): (n: nat)
    ensures n <= |cmds|
    decreases |cmds|
  {
    if cmds == [] || Panics(m, cmds[0]) then 0 else 1 + Completed(Handle(m, cmds[0]), cmds[1..])
  }

  function HandleAll(m: Mirrors, cmds: seq<Command>): Mirrors {
    if cmds == [] then m else Handle(HandleAll(m, cmds[..|cmds| - 1]), cmds[|cmds| - 1])
  }

  /** The calls made by one command after another. */
  ghost predicate MakesAll(m: Mirrors, cmds: seq<Command>, calls: seq<Call>) {
    if cmds == [] then calls == []
    else
      var earlier := cmds[..|cmds| - 1];
      exists k: nat | k <= |calls| ::
        MakesAll(m, earlier, calls[..k]) && Makes(HandleAll(m, earlier), cmds[|cmds| - 1], calls[k..])
  }

  /** The worker makes no progress past a command exactly if it panics there. */
  lemma {:induction false} CompletedPrefix(m: Mirrors, cmds: seq<Command>, n: nat)
    requires n <= |cmds|
    ensures n <= Completed(m, cmds) <==> forall i | 0 <= i < n :: !Panics(HandleAll(m, cmds[..i]), cmds[i])
    decreases n
  {
    if n > 0 {
      if Panics(m, cmds[0]) {
        assert HandleAll(m, cmds[..0]) == m;
      } else {
        CompletedPrefix(Handle(m, cmds[0]), cmds[1..], n - 1);
        assert !Panics(HandleAll(m, cmds[..0]), cmds[0]);
        forall i | 0 < i < n
          ensures Panics(HandleAll(m, cmds[..i]), cmds[i])
             <==> Panics(HandleAll(Handle(m, cmds[0]), cmds[1..][..i - 1]), cmds[1..][i - 1])
        {
          HandleFirst(m, cmds[..i]);
          assert cmds[..i][1..] == cmds[1..][..i - 1];
        }
        ShiftedPanics(m, cmds, n);
      }
    }
  }

  lemma ShiftedPanics(m: Mirrors, cmds: seq<Command>, n: nat)
    requires 0 < n <= |cmds|
    requires forall i | 0 < i < n ::
      Panics(HandleAll(m, cmds[..i]), cmds[i])
      <==> Panics(HandleAll(Handle(m, cmds[0]), cmds[1..][..i - 1]), cmds[1..][i - 1])
    ensures (forall i | 0 < i < n :: !Panics(HandleAll(m, cmds[..i]), cmds[i]))
       <==> forall j | 0 <= j < n - 1 :: !Panics(HandleAll(Handle(m, cmds[0]), cmds[1..][..j]), cmds[1..][j])
  {
    if forall i | 0 < i < n :: !Panics(HandleAll(m, cmds[..i]), cmds[i]) {
      forall j | 0 <= j < n - 1 ensures !Panics(HandleAll(Handle(m, cmds[0]), cmds[1..][..j]), cmds[1..][j]) {
        assert !Panics(HandleAll(m, cmds[..j + 1]), cmds[j + 1]);
      }
    }
  }

  lemma {:induction false} HandleFirst(m: Mirrors, cmds: seq<Command>)
    requires cmds != []
    ensures HandleAll(m, cmds) == HandleAll(Handle(m, cmds[0]), cmds[1..])
  {
    var n := |cmds| - 1;
    if n == 0 {
      assert cmds[..n] == [] && cmds[1..] == [];
    } else {
      HandleFirst(m, cmds[..n]);
      assert cmds[..n][1..] == cmds[1..][..n - 1];
    }
  }

  /******* The worker *******/

  class Worker {
    var deployments: set<string>
    var pvcs: set<string>
    var pods: set<string>
    /** The calls made so far; that some of them fail is only reported. */
    var calls: seq<Call>

    function Contents(): Mirrors
      reads this
    {
      Mirrors(deployments, pvcs, pods)
    }

    constructor ()
      ensures Contents() == Mirrors({}, {}, {}) && calls == []
    {
      deployments, pvcs, pods, calls := {}, {}, {}, [];
    }

    method DeleteEach(k: Kind, names: set<string>, force: bool)
      modifies this`calls
      ensures |old(calls)| <= |calls| && calls[..|old(calls)|] == old(calls)
      ensures DeletesEach(k, names, force, calls[|old(calls)|..])
    {
      hide DeletesEach;
      var rest := names;
      ghost var made: seq<Call> := [];
      NoNames(k, names - rest, force);
      while rest != {}
        invariant rest <= names
        invariant calls == old(calls) + made && DeletesEach(k, names - rest, force, made)
        decreases |rest|
      {
        var name :| name in rest;
        NextName(k, names - rest, name, force, made);
        assert names - (rest - {name}) == names - rest + {name};
        rest := rest - {name};
        calls := calls + [Delete(k, name, force)];
        made := made + [Delete(k, name, force)];
      }
      assert names - rest == names;
      assert calls[|old(calls)|..] == made;
    }

    method DeleteRandomPods(force: bool, instances: int) returns (panicked: bool)
      modifies this`calls
      ensures panicked <==> instances > 0 && pods == {}
      ensures |old(calls)| <= |calls| && calls[..|old(calls)|] == old(calls)
      ensures panicked ==> calls == old(calls)
      ensures !panicked ==> Makes(Contents(), DeleteRandomPod(force, instances), calls[|old(calls)|..])
    {
      ghost var made: seq<Call> := [];
      var i := 0;
      while i < instances
        invariant i == |made| <= (if instances > 0 then instances else 0) && (i > 0 ==> pods != {})
        invariant calls == old(calls) + made && DeletesSome(POD, pods, force, made)
      {
        if pods == {} {
          return true;
        }
        var randomPod :| randomPod in pods;
        calls := calls + [Delete(POD, randomPod, force)];
        made := made + [Delete(POD, randomPod, force)];
        i := i + 1;
      }
      assert calls[|old(calls)|..] == made;
      return false;
    }

    method DeleteDeployments(force: bool)
      modifies this`calls
      ensures |old(calls)| <= |calls| && calls[..|old(calls)|] == old(calls)
      ensures Makes(Contents(), DeleteAllDeployments(force), calls[|old(calls)|..])
    {
      DeleteEach(DEPLOYMENT, deployments, force);
      ghost var made := calls[|old(calls)|..];
      DeleteEach(PVC, pvcs, force);
      assert calls[|old(calls)|..][..|deployments|] == made;
    }

    /** An addition puts the name into the set of its kind, a deletion takes it out, and nothing else changes. */
    method HandleUpdate(k: Kind, e: Event)
      modifies `deployments, `pvcs, `pods
      ensures deployments == if k != DEPLOYMENT || e.Modified? then old(deployments)
                             else if e.Added? then old(deployments) + {e.name} else old(deployments) - {e.name}
      ensures pvcs == if k != PVC || e.Modified? then old(pvcs)
                      else if e.Added? then old(pvcs) + {e.name} else old(pvcs) - {e.name}
      ensures pods == if k != POD || e.Modified? then old(pods)
                      else if e.Added? then old(pods) + {e.name} else old(pods) - {e.name}
      ensures Contents() == Handle(old(Contents()), Update(k, e))
    {
      match (k, e)
      case (DEPLOYMENT, Added(name)) => deployments := deployments + {name};
      case (DEPLOYMENT, Deleted(name)) => deployments := deployments - {name};
      case (PVC, Added(name)) => pvcs := pvcs + {name};
      case (PVC, Deleted(name)) => pvcs := pvcs - {name};
      case (POD, Added(name)) => pods := pods + {name};
      case (POD, Deleted(name)) => pods := pods - {name};
      case (_, Modified(_)) =>
    }

    method DeployAll(name: string, replicas: int, pvc: string, size: int)
      modifies this`calls
      ensures |old(calls)| <= |calls| && calls[..|old(calls)|] == old(calls)
      ensures Makes(Contents(), Deploy(name, replicas, pvc, size), calls[|old(calls)|..])
    {
      if pvc == "" {
        calls := calls + [CreateClaim(name + "-claim", size)];
        calls := calls + [CreateDeployment(name + "-deployment", replicas, name + "-claim")];
      } else {
        calls := calls + [CreateDeployment(name + "-deployment", replicas, pvc)];
      }
    }

    method Execute(cmd: Command) returns (panicked: bool)
      modifies this
      ensures panicked <==> Panics(old(Contents()), cmd)
      ensures !panicked ==> Contents() == Handle(old(Contents()), cmd)
      ensures panicked ==> Contents() == old(Contents()) && calls == old(calls)
      ensures |old(calls)| <= |calls| && calls[..|old(calls)|] == old(calls)
      ensures !panicked ==> Makes(old(Contents()), cmd, calls[|old(calls)|..])
    {
      hide DeletesEach;
      panicked := false;
      match cmd
      case CreatePvc(pvc, size) =>
        calls := calls + [CreateClaim(pvc, size)];
      case Deploy(name, replicas, pvc, size) =>
        DeployAll(name, replicas, pvc, size);
      case DeleteAllPods(force) =>
        DeleteEach(POD, pods, force);
      case DeleteRandomPod(force, instances) =>
        panicked := DeleteRandomPods(force, instances);
      case DeleteAllDeployments(force) =>
        DeleteDeployments(force);
      case DeleteRandomDeployment(force) =>
        if deployments == {} {
          return true;
        }
        var randomDeployment :| randomDeployment in deployments;
        calls := calls + [Delete(DEPLOYMENT, randomDeployment, force)];
      case Update(k, e) =>
        HandleUpdate(k, e);
    }

    /** The commands in the order in which the channel hands them over. */
    method MasterWorker(cmds: seq<Command>) returns (panicked: bool)
      modifies this
      ensures var n := Completed(old(Contents()), cmds);
              && (panicked <==> n < |cmds|)
              && Contents() == HandleAll(old(Contents()), cmds[..n])
              && |old(calls)| <= |calls| && calls[..|old(calls)|] == old(calls)
              && MakesAll(old(Contents()), cmds[..n], calls[|old(calls)|..])
    {
      hide Handle, HandleAll, Panics, Makes, MakesAll, Completed;
      ghost var m, made := Contents(), [];
      NoCommands(m, cmds);
      for i := 0 to |cmds|
        invariant i <= Completed(m, cmds) && Contents() == HandleAll(m, cmds[..i])
        invariant calls == old(calls) + made && MakesAll(m, cmds[..i], made)
      {
        label before:
        panicked := Execute(cmds[i]);
        CompletedStep(m, cmds, i);
        if panicked {
          assert calls[|old(calls)|..] == made;
          return;
        }
        ghost var more := calls[|old@before(calls)|..];
        NextCalls(m, cmds, i, made, more);
        made := made + more;
      }
      assert calls[|old(calls)|..] == made;
      panicked := false;
    }
  }

  lemma NoCommands(m: Mirrors, cmds: seq<Command>)
    ensures HandleAll(m, cmds[..0]) == m && MakesAll(m, cmds[..0], [])
  {
  }

  lemma CompletedStep(m: Mirrors, cmds: seq<Command>, i: nat)
    requires i < |cmds| && i <= Completed(m, cmds)
    ensures i + 1 <= Completed(m, cmds) <==> !Panics(HandleAll(m, cmds[..i]), cmds[i])
  {
    CompletedPrefix(m, cmds, i);
    CompletedPrefix(m, cmds, i + 1);
  }

  lemma NoNames(k: Kind, names: set<string>, force: bool)
    requires names == {}
    ensures DeletesEach(k, names, force, [])
  {
  }

  lemma NextName(k: Kind, names: set<string>, name: string, force: bool, calls: seq<Call>)
    requires DeletesEach(k, names, force, calls) && name !in names
    ensures DeletesEach(k, names + {name}, force, calls + [Delete(k, name, force)])
  {
  }

  lemma NextCalls(m: Mirrors, cmds: seq<Command>, i: nat, made: seq<Call>, more: seq<Call>)
    requires i < |cmds| && MakesAll(m, cmds[..i], made) && Makes(HandleAll(m, cmds[..i]), cmds[i], more)
    ensures MakesAll(m, cmds[..i + 1], made + more)
    ensures HandleAll(m, cmds[..i + 1]) == Handle(HandleAll(m, cmds[..i]), cmds[i])
  {
    assert cmds[..i + 1][..i] == cmds[..i];
    assert (made + more)[..|made|] == made && (made + more)[|made|..] == more;
  }
}
