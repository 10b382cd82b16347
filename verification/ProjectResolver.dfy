/** A cache of the Rancher directory: whose projects are whose, and which project a namespace is in. */
module ProjectResolver {
  import opened Wrappers
  import opened Rancher

  /******* The directory and what is read of it *******/

  datatype UserProjectInfo = UserProjectInfo(isOwner: bool, projectId: string, projectName: string)

  /** A project in the listing, and what asking for its members and its namespaces returns. None is an error. */
  datatype Project = Project(id: string, name: string, members: Option<seq<Member>>, namespaces: Option<seq<string>>)

  /** What one refresh reads. */
  datatype Reading = Unlisted | Listed(projects: seq<Project>)

  /** Entities without an id or a name are dropped from the listing. */
  function Entities(projects: seq<Project>): (entities: seq<Project>)
    ensures forall p | p in entities :: p.id != "" && p.name != "" && p in projects
    ensures forall p | p in projects && p.id != "" && p.name != "" :: p in entities
  {
    if projects == [] then []
    else
      (if projects[0].id == "" || projects[0].name == "" then [] else [projects[0]]) + Entities(projects[1..])
  }

  /** One thing that the cache records. */
  datatype Fact = Bound(user: string, info: UserProjectInfo) | Placed(namespace: string, project: string)

  function BoundFact(p: Project, m: Member): Fact {
    Bound(m.userId, UserProjectInfo(m.roleTemplateId == "project-owner", p.id, p.name))
  }

  function MemberFacts(p: Project, members: seq<Member>): (facts: seq<Fact>)
    ensures |facts| == |members| && forall i | 0 <= i < |members| :: facts[i] == BoundFact(p, members[i])
  {
    seq(|members|, i requires 0 <= i < |members| => BoundFact(p, members[i]))
  }

  function NamespaceFacts(p: Project, namespaces: seq<string>): (facts: seq<Fact>)
    ensures |facts| == |namespaces| && forall i | 0 <= i < |namespaces| :: facts[i] == Placed(namespaces[i], p.id)
  {
    seq(|namespaces|, i requires 0 <= i < |namespaces| => Placed(namespaces[i], p.id))
  }

  predicate Complete(p: Project) {
    p.members.Some? && p.namespaces.Some?
  }

  predicate AllComplete(projects: seq<Project>) {
    forall p | p in projects :: Complete(p)
  }

  /** What is read of a project before an error, if there is one: the members come first. */
  function ProjectFacts(p: Project): seq<Fact> {
    if p.members.None? then []
    else MemberFacts(p, p.members.value) + if p.namespaces.None? then [] else NamespaceFacts(p, p.namespaces.value)
  }

  /** What is read of the listed projects before the first error. */
  function Facts(projects: seq<Project>): seq<Fact> {
    if projects == [] then []
    else ProjectFacts(projects[0]) + if Complete(projects[0]) then Facts(projects[1..]) else []
  }

  /** What remains to be read after these facts is what the projects from the `i`th on give. */
  ghost predicate ReadUpTo(projects: seq<Project>, i: nat, facts: seq<Fact>) {
    i <= |projects| && facts + Facts(projects[i..]) == Facts(projects)
  }

  lemma ReadStart(projects: seq<Project>)
    ensures ReadUpTo(projects, 0, [])
  {
    assert projects[0..] == projects;
  }

  lemma ReadNext(projects: seq<Project>, i: nat, facts: seq<Fact>)
    requires i < |projects| && ReadUpTo(projects, i, facts)
    ensures var p := projects[i];
            if p.members.None? then facts == Facts(projects)
            else if p.namespaces.None? then facts + MemberFacts(p, p.members.value) == Facts(projects)
            else ReadUpTo(projects, i + 1,
                          facts + MemberFacts(p, p.members.value) + NamespaceFacts(p, p.namespaces.value))
  {
    var p, rest := projects[i], Facts(projects[i + 1..]);
    assert projects[i..][1..] == projects[i + 1..];
    if p.members.Some? && p.namespaces.Some? {
      var members, spaces := MemberFacts(p, p.members.value), NamespaceFacts(p, p.namespaces.value);
      assert facts + (members + spaces + rest) == facts + members + spaces + rest;
    }
  }

  lemma ReadEnd(projects: seq<Project>, facts: seq<Fact>)
    requires ReadUpTo(projects, |projects|, facts)
    ensures facts == Facts(projects)
  {
  }

  /******* The index *******/

  function InfoOf(f: Fact, user: string): seq<UserProjectInfo> {
    if f.Bound? && f.user == user then [f.info] else []
  }

  function ProjectsOf(facts: seq<Fact>, user: string): seq<UserProjectInfo> {
    if facts == [] then [] else ProjectsOf(facts[..|facts| - 1], user) + InfoOf(facts[|facts| - 1], user)
  }

  /** The project recorded last for a namespace. */
  function ProjectOf(facts: seq<Fact>, namespace: string): Option<string> {
    if facts == [] then None
    else
      var last := facts[|facts| - 1];
      if last.Placed? && last.namespace == namespace then Some(last.project)
      else ProjectOf(facts[..|facts| - 1], namespace)
  }

  type Users = map<string, seq<UserProjectInfo>>
  type Namespaces = map<string, string>

  /** A missing key reads as an empty list. */
  function UserEntry(users: Users, user: string): seq<UserProjectInfo> {
    if user in users then users[user] else []
  }

  function NamespaceEntry(namespaces: Namespaces, namespace: string): string {
    if namespace in namespaces then namespaces[namespace] else ""
  }

  /** The maps hold exactly these facts. */
  ghost predicate Indexed(users: Users, namespaces: Namespaces, facts: seq<Fact>) {
    && (forall u :: UserEntry(users, u) == ProjectsOf(facts, u))
    && (forall u | u in users :: users[u] != [])
    && (forall n :: ProjectOf(facts, n) == if n in namespaces then Some(namespaces[n]) else None)
  }

  lemma NothingIndexed()
    ensures Indexed(map[], map[], [])
  {
  }

  lemma OneMoreFact(facts: seq<Fact>, f: Fact, key: string)
    ensures ProjectsOf(facts + [f], key) == ProjectsOf(facts, key) + InfoOf(f, key)
    ensures ProjectOf(facts + [f], key)
         == if f.Placed? && f.namespace == key then Some(f.project) else ProjectOf(facts, key)
  {
    assert (facts + [f])[..|facts|] == facts;
  }

  lemma IndexBinding(users: Users, namespaces: Namespaces, facts: seq<Fact>, u: string, info: UserProjectInfo)
    requires Indexed(users, namespaces, facts)
    ensures Indexed(users[u := UserEntry(users, u) + [info]], namespaces, facts + [Bound(u, info)])
  {
    var users' := users[u := UserEntry(users, u) + [info]];
    forall v ensures UserEntry(users', v) == ProjectsOf(facts + [Bound(u, info)], v) {
      OneMoreFact(facts, Bound(u, info), v);
      assert UserEntry(users, v) == ProjectsOf(facts, v);
    }
    forall n ensures ProjectOf(facts + [Bound(u, info)], n) == ProjectOf(facts, n) {
      OneMoreFact(facts, Bound(u, info), n);
    }
  }

  lemma IndexPlacement(users: Users, namespaces: Namespaces, facts: seq<Fact>, n: string, project: string)
    requires Indexed(users, namespaces, facts)
    ensures Indexed(users, namespaces[n := project], facts + [Placed(n, project)])
  {
    forall u ensures ProjectsOf(facts + [Placed(n, project)], u) == ProjectsOf(facts, u) {
      OneMoreFact(facts, Placed(n, project), u);
    }
    forall m
      ensures ProjectOf(facts + [Placed(n, project)], m) == if m == n then Some(project) else ProjectOf(facts, m)
    {
      OneMoreFact(facts, Placed(n, project), m);
    }
  }

  /** The facts determine the maps: nothing else can be left over in them. */
  lemma IndexUnique(users: Users, namespaces: Namespaces, users': Users, namespaces': Namespaces, facts: seq<Fact>)
    requires Indexed(users, namespaces, facts) && Indexed(users', namespaces', facts)
    ensures users == users' && namespaces == namespaces'
  {
    forall u ensures u in users <==> u in users'
      ensures u in users && u in users' ==> users[u] == users'[u]
    {
      assert UserEntry(users, u) == ProjectsOf(facts, u) == UserEntry(users', u);
    }
    forall n ensures n in namespaces <==> n in namespaces'
      ensures n in namespaces && n in namespaces' ==> namespaces[n] == namespaces'[n]
    {
      assert ProjectOf(facts, n).Some? <==> n in namespaces;
    }
  }

  /******* The answers *******/

  function OrEmpty(project: Option<string>): string {
    if project.Some? then project.value else ""
  }

  ghost predicate BoundTo(facts: seq<Fact>, user: string, projectId: string) {
    exists info | info in ProjectsOf(facts, user) :: info.projectId == projectId
  }

  ghost predicate HasMember(facts: seq<Fact>, projectId: string) {
    exists user :: BoundTo(facts, user, projectId)
  }

  /** The first binding to the project. */
  function FirstBinding(infos: seq<UserProjectInfo>, projectId: string): (info: UserProjectInfo)
    requires exists info | info in infos :: info.projectId == projectId
    ensures info in infos && info.projectId == projectId
  {
    if infos[0].projectId == projectId then infos[0] else FirstBinding(infos[1..], projectId)
  }

  /** The owner flag that a hit returns. */
  ghost function HitFlag(facts: seq<Fact>, user: string, projectId: string): bool
    requires BoundTo(facts, user, projectId)
  {
    FirstBinding(ProjectsOf(facts, user), projectId).isOwner
  }

  /** The owner flag that is returned after a refresh. */
  function RefreshFlag(facts: seq<Fact>, user: string): bool {
    |ProjectsOf(facts, user)| == 1 && ProjectsOf(facts, user)[0].isOwner
  }

  datatype Owner = Owner(user: string, isOwner: bool)

  /** The facts that the cache holds after a refresh. */
  function Refreshed(facts: seq<Fact>, r: Reading): seq<Fact> {
    if r.Unlisted? then facts else Facts(Entities(r.projects))
  }

  predicate Succeeds(r: Reading) {
    r.Listed? && AllComplete(Entities(r.projects))
  }

  /** Whether looking for a project's user may end with this answer; which user it is depends on the map's order. */
  ghost predicate MayFind(facts: seq<Fact>, r: Reading, projectId: string, answer: Option<Owner>) {
    if HasMember(facts, projectId) then
      && answer.Some? && BoundTo(facts, answer.value.user, projectId)
      && answer.value.isOwner == HitFlag(facts, answer.value.user, projectId)
    else if !Succeeds(r) then
      answer.None?
    else
      var facts' := Refreshed(facts, r);
      if HasMember(facts', projectId) then
        && answer.Some? && BoundTo(facts', answer.value.user, projectId)
        && answer.value.isOwner == RefreshFlag(facts', answer.value.user)
      else if ProjectsOf(facts', "") != [] then
        answer == Some(Owner("", RefreshFlag(facts', "")))
      else
        answer.None?
  }

  /******* The resolver *******/

  class Resolver {
    var users: Users
    var namespaces: Namespaces
    /** What the cache was built from. */
    ghost var facts: seq<Fact>

    ghost predicate Valid()
      reads this
    {
      Indexed(users, namespaces, facts)
    }

    constructor ()
      ensures Valid() && facts == []
    {
      users, namespaces, facts := map[], map[], [];
      new;
      NothingIndexed();
    }

    method ClearCache()
      modifies this
      ensures Valid() && facts == []
    {
      while users != map[]
        decreases |users|
      {
        var k :| k in users;
        users := users - {k};
      }
      while namespaces != map[]
        invariant users == map[]
        decreases |namespaces|
      {
        var k :| k in namespaces;
        namespaces := namespaces - {k};
      }
      facts := [];
      NothingIndexed();
    }

    /** What fails after the listing leaves the cache partly built. */
    method UpdateCache(r: Reading) returns (ok: bool)
      requires Valid()
      modifies this
      ensures Valid() && facts == Refreshed(old(facts), r) && ok == Succeeds(r)
    {
      hide Indexed, Facts, Entities, ReadUpTo;
      if r.Unlisted? {
        return false;
      }
      var entities := Entities(r.projects);
      ReadStart(entities);
      ClearCache();
      for i := 0 to |entities|
        invariant Valid() && ReadUpTo(entities, i, facts)
        invariant forall j | 0 <= j < i :: Complete(entities[j])
      {
        var project := entities[i];
        ReadNext(entities, i, facts);
        if project.members.None? {
          assert !AllComplete(entities);
          return false;
        }
        AddMembers(project, project.members.value);
        if project.namespaces.None? {
          assert !AllComplete(entities);
          return false;
        }
        AddNamespaces(project, project.namespaces.value);
      }
      ReadEnd(entities, facts);
      assert AllComplete(entities);
      ok := true;
    }

    method AddMembers(project: Project, members: seq<Member>)
      requires Valid()
      modifies this
      ensures Valid() && facts == old(facts) + MemberFacts(project, members)
    {
      hide Indexed;
      for i := 0 to |members|
        invariant Valid() && facts == old(facts) + MemberFacts(project, members)[..i]
      {
        var member := members[i];
        var info := UserProjectInfo(member.roleTemplateId == "project-owner", project.id, project.name);
        IndexBinding(users, namespaces, facts, member.userId, info);
        users := users[member.userId := UserEntry(users, member.userId) + [info]];
        facts := facts + [Bound(member.userId, info)];
      }
    }

    method AddNamespaces(project: Project, spaces: seq<string>)
      requires Valid()
      modifies this
      ensures Valid() && facts == old(facts) + NamespaceFacts(project, spaces)
    {
      hide Indexed;
      for i := 0 to |spaces|
        invariant Valid() && facts == old(facts) + NamespaceFacts(project, spaces)[..i]
      {
        IndexPlacement(users, namespaces, facts, spaces[i], project.id);
        namespaces := namespaces[spaces[i] := project.id];
        facts := facts + [Placed(spaces[i], project.id)];
      }
    }

    method ResolveProjectsByUser(user: string, r: Reading) returns (plist: seq<UserProjectInfo>, ok: bool)
      requires Valid()
      modifies this
      ensures Valid() && facts == NextFacts(old(facts), ByUser(user, r))
      ensures ok <==> ProjectsOf(old(facts), user) != [] || Succeeds(r)
      ensures plist == if ok then ProjectsOf(facts, user) else []
    {
      plist := UserEntry(users, user);
      if |plist| > 0 {
        return plist, true;
      }
      ok := UpdateCache(r);
      if !ok {
        return [], false;
      }
      plist := UserEntry(users, user);
    }

    method ResolveProjectIdByNamespace(namespace: string, r: Reading)
      returns (project: string, cacheHit: bool, ok: bool)
      requires Valid()
      modifies this
      ensures Valid() && facts == NextFacts(old(facts), ByNamespace(namespace, r))
      ensures cacheHit <==> OrEmpty(ProjectOf(old(facts), namespace)) != ""
      ensures ok <==> cacheHit || Succeeds(r)
      ensures project == if ok then OrEmpty(ProjectOf(facts, namespace)) else ""
    {
      project, cacheHit, ok := NamespaceEntry(namespaces, namespace), true, true;
      if project == "" {
        cacheHit := false;
        ok := UpdateCache(r);
        if !ok {
          return "", false, false;
        }
        project := NamespaceEntry(namespaces, namespace);
      }
    }

    method CachedUserByProject(projectId: string) returns (found: Option<Owner>)
      requires Valid()
      ensures found.Some? <==> HasMember(facts, projectId)
      ensures found.Some? ==> BoundTo(facts, found.value.user, projectId)
                              && found.value.isOwner == HitFlag(facts, found.value.user, projectId)
    {
      var rest := users.Keys;
      while rest != {}
        invariant rest <= users.Keys
        invariant forall u | u in users.Keys - rest :: !BoundTo(facts, u, projectId)
        decreases |rest|
      {
        var user :| user in rest;
        rest := rest - {user};
        var plist := users[user];
        assert UserEntry(users, user) == ProjectsOf(facts, user) == plist;
        for i := 0 to |plist|
          invariant forall j | 0 <= j < i :: plist[j].projectId != projectId
        {
          if plist[i].projectId == projectId {
            assert BoundTo(facts, user, projectId);
            FirstAt(plist, projectId, i);
            return Some(Owner(user, plist[i].isOwner));
          }
        }
      }
      forall u ensures !BoundTo(facts, u, projectId) {
        assert UserEntry(users, u) == ProjectsOf(facts, u);
      }
      return None;
    }

    method FindUserByProject(projectId: string, r: Reading) returns (answer: Option<Owner>)
      requires Valid()
      modifies this
      ensures Valid() && facts == NextFacts(old(facts), ByProject(projectId, r))
      ensures MayFind(old(facts), r, projectId, answer)
    {
      var found := CachedUserByProject(projectId);
      if found.Some? {
        return found;
      }
      var ok := UpdateCache(r);
      if !ok {
        return None;
      }
      found := CachedUserByProject(projectId);
      var user := if found.Some? then found.value.user else "";
      var plist := UserEntry(users, user);
      assert plist == ProjectsOf(facts, user);
      if |plist| > 1 {
        return Some(Owner(user, false));
      }
      if |plist| == 1 {
        return Some(Owner(user, plist[0].isOwner));
      }
      return None;
    }
  }

  lemma {:induction false} FirstAt(infos: seq<UserProjectInfo>, projectId: string, i: nat)
    requires i < |infos| && infos[i].projectId == projectId
    requires forall j | 0 <= j < i :: infos[j].projectId != projectId
    ensures FirstBinding(infos, projectId) == infos[i]
  {
    if i > 0 {
      FirstAt(infos[1..], projectId, i - 1);
    }
  }

  /******* Runs of calls *******/

  datatype Call = Refresh(reading: Reading)
                | ByUser(user: string, reading: Reading)
                | ByNamespace(namespace: string, reading: Reading)
                | ByProject(projectId: string, reading: Reading)

  /** A call refreshes the cache unless it finds an answer there. */
  ghost function NextFacts(facts: seq<Fact>, call: Call): seq<Fact> {
    match call
    case Refresh(r) => Refreshed(facts, r)
    case ByUser(user, r) => if ProjectsOf(facts, user) != [] then facts else Refreshed(facts, r)
    case ByNamespace(namespace, r) => if OrEmpty(ProjectOf(facts, namespace)) != "" then facts else Refreshed(facts, r)
    case ByProject(projectId, r) => if HasMember(facts, projectId) then facts else Refreshed(facts, r)
  }

  ghost function FactsAfter(calls: seq<Call>): seq<Fact> {
    if calls == [] then [] else NextFacts(FactsAfter(calls[..|calls| - 1]), calls[|calls| - 1])
  }
}
