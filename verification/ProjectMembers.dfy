/** Bringing a project's role bindings in line with a desired list of members. */
module ProjectMembers {
  import opened Rancher
  import opened Sums

  /******* Bindings on the server *******/

  /** A role binding as the server stores it: at most one of the two principals is set. */
  datatype Binding = Binding(id: string, userId: string, projectId: string, roleTemplateId: string,
                             userPrincipalId: string, groupPrincipalId: string)

  function Decode(b: Binding): Member {
    if b.userPrincipalId != "" then Member(b.id, b.userId, b.projectId, USER, b.userPrincipalId, b.roleTemplateId)
    else Member(b.id, b.userId, b.projectId, GROUP, b.groupPrincipalId, b.roleTemplateId)
  }

  function ValidKind(m: Member): bool {
    m.kind == USER || m.kind == GROUP
  }

  function Encode(m: Member, projectId: string, id: string): Binding {
    Binding(id, m.userId, projectId, m.roleTemplateId,
            if m.kind == USER then m.principalId else "", if m.kind == GROUP then m.principalId else "")
  }

  /** Members that read back as they were written. */
  predicate Storable(m: Member) {
    m.kind == GROUP || (m.kind == USER && m.principalId != "")
  }

  lemma EncodeDecode(m: Member, projectId: string, id: string)
    requires ValidKind(m)
    ensures Compare(Decode(Encode(m, projectId, id)), m) <==> Storable(m)
    ensures Decode(Encode(m, projectId, id)).id == id
  {
  }

  lemma DecodedStorable(b: Binding)
    ensures Storable(Decode(b))
  {
  }

  function Members(bindings: seq<Binding>): seq<Member> {
    Map(bindings, Decode)
  }

  predicate HasMember(members: seq<Member>, target: Member) {
    exists m | m in members :: Compare(m, target)
  }

  ghost predicate DistinctIds(bindings: seq<Binding>) {
    Keyed(bindings, (b: Binding) => b.id)
  }

  /******* The environment of an update *******/

  /** How a call ends. A lost call takes effect although it is reported as failed. */
  datatype Outcome = Done | Refused | Lost

  datatype Environment = Environment(detail: bool, put: bool, setPolicy: bool,
                                     adds: nat -> Outcome, deletes: nat -> Outcome, ids: nat -> string)

  /** The server never gives out an id twice. */
  ghost predicate FreshIds(ids: nat -> string, bindings: seq<Binding>) {
    && (forall i, b | b in bindings :: b.id != ids(i))
    && (forall i, j | i != j :: ids(i) != ids(j))
  }

  /******* The difference and the states on the way *******/

  function NewMembers(held: seq<Member>, desired: seq<Member>): seq<Member> {
    Filter(desired, (m: Member) => !HasMember(held, m))
  }

  function DeletedMembers(held: seq<Member>, desired: seq<Member>): seq<Member> {
    Filter(held, (m: Member) => !HasMember(desired, m))
  }

  function Added(bindings: seq<Binding>, m: Member, projectId: string, outcome: Outcome, id: string): seq<Binding> {
    if ValidKind(m) && outcome != Refused then bindings + [Encode(m, projectId, id)] else bindings
  }

  function Deleted(bindings: seq<Binding>, id: string, outcome: Outcome): seq<Binding> {
    if outcome == Refused then bindings else Filter(bindings, (b: Binding) => b.id != id)
  }

  /** The bindings after the first `n` additions. */
  function AfterAdds(bindings: seq<Binding>, added: seq<Member>, projectId: string, env: Environment,
                     n: nat): seq<Binding>
    requires n <= |added|
  {
    if n == 0 then bindings
    else
      var earlier := AfterAdds(bindings, added, projectId, env, n - 1);
      Added(earlier, added[n - 1], projectId, env.adds(n - 1), env.ids(n - 1))
  }

  /** The bindings after the first `n` deletions. */
  function AfterDeletes(bindings: seq<Binding>, deleted: seq<Member>, env: Environment, n: nat): seq<Binding>
    requires n <= |deleted|
  {
    if n == 0 then bindings
    else Deleted(AfterDeletes(bindings, deleted, env, n - 1), deleted[n - 1].id, env.deletes(n - 1))
  }

  function Calls(held: seq<Binding>, desired: seq<Member>): nat {
    |NewMembers(Members(held), desired)| + |DeletedMembers(Members(held), desired)|
  }

  /** The bindings after the first `n` of an update's calls: first the additions, then the deletions. */
  function StateAt(held: seq<Binding>, desired: seq<Member>, projectId: string, env: Environment, n: nat): seq<Binding>
    requires n <= Calls(held, desired)
  {
    var added, deleted := NewMembers(Members(held), desired), DeletedMembers(Members(held), desired);
    if n <= |added| then AfterAdds(held, added, projectId, env, n)
    else AfterDeletes(AfterAdds(held, added, projectId, env, |added|), deleted, env, n - |added|)
  }

  /******* The client and the server behind it *******/

  class Client {
    const projectId: string
    var bindings: seq<Binding>
    var policy: string

    constructor (projectId: string, policy: string)
      ensures this.projectId == projectId && this.policy == policy && bindings == []
    {
      this.projectId, this.policy, bindings := projectId, policy, [];
    }

    method GetProjectMembers() returns (members: seq<Member>)
      ensures members == Members(bindings)
      ensures |members| == |bindings|
      ensures forall i | 0 <= i < |bindings| ::
        var b := bindings[i];
        members[i] == Member(b.id, b.userId, b.projectId, if b.userPrincipalId != "" then "User" else "Group",
                             if b.userPrincipalId != "" then b.userPrincipalId else b.groupPrincipalId,
                             b.roleTemplateId)
    {
      members := [];
      for i := 0 to |bindings|
        invariant members == Members(bindings)[..i]
      {
        var item := bindings[i];
        var newMember := Member(item.id, item.userId, item.projectId, "", "", item.roleTemplateId);
        if item.userPrincipalId != "" {
          newMember := newMember.(kind := USER, principalId := item.userPrincipalId);
        } else {
          newMember := newMember.(kind := GROUP, principalId := item.groupPrincipalId);
        }
        members := members + [newMember];
      }
    }

    method AddProjectMember(m: Member, outcome: Outcome, id: string) returns (ok: bool)
      modifies this`bindings
      ensures bindings == Added(old(bindings), m, projectId, outcome, id)
      ensures bindings == old(bindings) +
                if outcome == Refused then []
                else if m.kind == "User" then [Binding(id, m.userId, projectId, m.roleTemplateId, m.principalId, "")]
                else if m.kind == "Group" then [Binding(id, m.userId, projectId, m.roleTemplateId, "", m.principalId)]
                else []
      ensures ok <==> (m.kind == "User" || m.kind == "Group") && outcome == Done
    {
      var payload := Binding(id, m.userId, projectId, m.roleTemplateId, "", "");
      if m.kind == USER {
        payload := payload.(userPrincipalId := m.principalId);
      } else if m.kind == GROUP {
        payload := payload.(groupPrincipalId := m.principalId);
      } else {
        return false;
      }
      if outcome != Refused {
        bindings := bindings + [payload];
      }
      ok := outcome == Done;
    }

    method DeleteProjectMember(id: string, outcome: Outcome) returns (ok: bool)
      modifies this`bindings
      ensures bindings == Deleted(old(bindings), id, outcome)
      ensures forall b :: b in bindings <==> b in old(bindings) && (b.id != id || outcome == Refused)
      ensures ok <==> outcome == Done
    {
      if outcome != Refused {
        bindings := Filter(bindings, (b: Binding) => b.id != id);
      }
      ok := outcome == Done;
    }

    /** Failures of single additions and deletions are only logged. */
    method UpdateProject(desired: seq<Member>, newPolicy: string, env: Environment) returns (ok: bool)
      modifies this
      ensures ok <==> env.detail && env.put && (old(policy) == newPolicy || env.setPolicy)
      ensures bindings == if ok then StateAt(old(bindings), desired, projectId, env, Calls(old(bindings), desired))
                          else old(bindings)
      ensures policy == if ok then newPolicy else old(policy)
    {
      hide Filter, Map, HasMember;
      if !env.detail {
        return false;
      }
      var oldMembers := GetProjectMembers();
      if !env.put {
        return false;
      }
      if policy != newPolicy {
        if !env.setPolicy {
          return false;
        }
        policy := newPolicy;
      }
      var newMembers := Without(desired, oldMembers);
      var deletedMembers := Without(oldMembers, desired);
      for i := 0 to |newMembers|
        invariant bindings == AfterAdds(old(bindings), newMembers, projectId, env, i)
        invariant policy == newPolicy
      {
        var added := AddProjectMember(newMembers[i], env.adds(i), env.ids(i));
      }
      ghost var complete := bindings;
      for i := 0 to |deletedMembers|
        invariant bindings == AfterDeletes(complete, deletedMembers, env, i)
        invariant policy == newPolicy
      {
        var deleted := DeleteProjectMember(deletedMembers[i].id, env.deletes(i));
      }
      ok := true;
    }
  }

  /** The members that have no equivalent among the others. */
  method Without(members: seq<Member>, others: seq<Member>) returns (kept: seq<Member>)
    ensures kept == Filter(members, (m: Member) => !HasMember(others, m))
  {
    kept := [];
    var p := (m: Member) => !HasMember(others, m);
    for i := 0 to |members|
      invariant kept == Filter(members[..i], p)
    {
      var found := FindMember(others, members[i]);
      FilterAppend(members[..i], [members[i]], p);
      assert members[..i + 1] == members[..i] + [members[i]];
      assert [members[i]][1..] == [];
      if !found {
        kept := kept + [members[i]];
      }
    }
    assert members[..|members|] == members;
  }

  method FindMember(members: seq<Member>, target: Member) returns (found: bool)
    ensures found <==> HasMember(members, target)
    ensures found <==> exists m | m in members ::
              m.kind == target.kind && m.principalId == target.principalId && m.roleTemplateId == target.roleTemplateId
  {
    for i := 0 to |members|
      invariant forall j | 0 <= j < i :: !Compare(members[j], target)
    {
      if Compare(members[i], target) {
        return true;
      }
    }
    return false;
  }
}
