/** How the cached answers relate to the directory. */
module ResolverProperties {
  import opened Wrappers
  import opened Rancher
  import opened ProjectResolver

  /******* A complete refresh *******/

  /** Projects without an id or a name are left out of the listing. */
  predicate Kept(p: Project) {
    p.id != "" && p.name != ""
  }

  predicate KeptComplete(listing: seq<Project>) {
    forall i | 0 <= i < |listing| && Kept(listing[i]) :: Complete(listing[i])
  }

  /** A user's bindings, project by project in the order of the listing. */
  function UserBindings(listing: seq<Project>, user: string): seq<UserProjectInfo> {
    if listing == [] then []
    else
      (if Kept(listing[0]) && listing[0].members.Some?
       then ProjectBindings(listing[0], listing[0].members.value, user) else [])
      + UserBindings(listing[1..], user)
  }

  function ProjectBindings(p: Project, members: seq<Member>, user: string): seq<UserProjectInfo> {
    if members == [] then []
    else
      (if members[0].userId == user
       then [UserProjectInfo(members[0].roleTemplateId == "project-owner", p.id, p.name)] else [])
      + ProjectBindings(p, members[1..], user)
  }

  ghost predicate Holds(p: Project, namespace: string) {
    p.namespaces.Some? && namespace in p.namespaces.value
  }

  lemma {:induction false} ProjectsOfConcat(a: seq<Fact>, b: seq<Fact>, user: string)
    ensures ProjectsOf(a + b, user) == ProjectsOf(a, user) + ProjectsOf(b, user)
  {
    if b == [] {
      assert a + b == a;
    } else {
      assert (a + b)[..|a + b| - 1] == a + b[..|b| - 1];
      ProjectsOfConcat(a, b[..|b| - 1], user);
    }
  }

  lemma {:induction false} ProjectOfConcat(a: seq<Fact>, b: seq<Fact>, namespace: string)
    ensures ProjectOf(a + b, namespace)
         == if ProjectOf(b, namespace).Some? then ProjectOf(b, namespace) else ProjectOf(a, namespace)
  {
    if b == [] {
      assert a + b == a;
    } else {
      assert (a + b)[..|a + b| - 1] == a + b[..|b| - 1];
      ProjectOfConcat(a, b[..|b| - 1], namespace);
    }
  }

  lemma {:induction false} MemberFactsIndexed(p: Project, members: seq<Member>, key: string)
    ensures ProjectsOf(MemberFacts(p, members), key) == ProjectBindings(p, members, key)
    ensures ProjectOf(MemberFacts(p, members), key) == None
  {
    if members != [] {
      var first := [BoundFact(p, members[0])];
      assert MemberFacts(p, members) == first + MemberFacts(p, members[1..]);
      MemberFactsIndexed(p, members[1..], key);
      ProjectsOfConcat(first, MemberFacts(p, members[1..]), key);
      ProjectOfConcat(first, MemberFacts(p, members[1..]), key);
      assert first[..0] == [];
    }
  }

  lemma {:induction false} NamespaceFactsIndexed(p: Project, namespaces: seq<string>, key: string)
    ensures ProjectsOf(NamespaceFacts(p, namespaces), key) == []
    ensures ProjectOf(NamespaceFacts(p, namespaces), key) == if key in namespaces then Some(p.id) else None
  {
    if namespaces != [] {
      var first := [Placed(namespaces[0], p.id)];
      assert NamespaceFacts(p, namespaces) == first + NamespaceFacts(p, namespaces[1..]);
      NamespaceFactsIndexed(p, namespaces[1..], key);
      ProjectsOfConcat(first, NamespaceFacts(p, namespaces[1..]), key);
      ProjectOfConcat(first, NamespaceFacts(p, namespaces[1..]), key);
      assert first[..0] == [];
    }
  }

  lemma ProjectFactsIndexed(p: Project, key: string)
    requires Complete(p)
    ensures ProjectsOf(ProjectFacts(p), key) == ProjectBindings(p, p.members.value, key)
    ensures ProjectOf(ProjectFacts(p), key) == if Holds(p, key) then Some(p.id) else None
  {
    MemberFactsIndexed(p, p.members.value, key);
    NamespaceFactsIndexed(p, p.namespaces.value, key);
    ProjectsOfConcat(MemberFacts(p, p.members.value), NamespaceFacts(p, p.namespaces.value), key);
    ProjectOfConcat(MemberFacts(p, p.members.value), NamespaceFacts(p, p.namespaces.value), key);
  }

  lemma EntitiesStep(listing: seq<Project>)
    requires listing != []
    ensures Facts(Entities(listing))
         == if !Kept(listing[0]) then Facts(Entities(listing[1..]))
            else ProjectFacts(listing[0]) + if Complete(listing[0]) then Facts(Entities(listing[1..])) else []
  {
    hide Facts, ProjectFacts;
    var rest := Entities(listing[1..]);
    if Kept(listing[0]) {
      FactsFirst(listing[0], rest);
      assert Entities(listing) == [listing[0]] + rest;
    } else {
      assert Entities(listing) == [] + rest == rest;
    }
  }

  lemma FactsFirst(p: Project, rest: seq<Project>)
    ensures Facts([p] + rest) == ProjectFacts(p) + if Complete(p) then Facts(rest) else []
  {
    assert ([p] + rest)[1..] == rest;
  }

  /** After a complete refresh a user's entry is the list of that user's bindings, in the order of the listing. */
  lemma {:induction false} CompleteUsers(listing: seq<Project>, user: string)
    requires KeptComplete(listing)
    ensures ProjectsOf(Facts(Entities(listing)), user) == UserBindings(listing, user)
  {
    if listing != [] {
      EntitiesStep(listing);
      CompleteUsers(listing[1..], user);
      if Kept(listing[0]) {
        ProjectFactsIndexed(listing[0], user);
        ProjectsOfConcat(ProjectFacts(listing[0]), Facts(Entities(listing[1..])), user);
      }
    }
  }

  /** After a complete refresh a namespace's entry is the last listed project that holds it. */
  lemma {:induction false} CompleteNamespaces(listing: seq<Project>, namespace: string)
    requires KeptComplete(listing)
    ensures match ProjectOf(Facts(Entities(listing)), namespace)
            case None => forall j | 0 <= j < |listing| && Kept(listing[j]) :: !Holds(listing[j], namespace)
            case Some(id) => exists i | 0 <= i < |listing| ::
              && listing[i].id == id && Kept(listing[i]) && Holds(listing[i], namespace)
              && NotAfter(listing, namespace, i)
  {
    if listing != [] {
      var rest := listing[1..];
      EntitiesStep(listing);
      CompleteNamespaces(rest, namespace);
      if Kept(listing[0]) {
        ProjectFactsIndexed(listing[0], namespace);
        ProjectOfConcat(ProjectFacts(listing[0]), Facts(Entities(rest)), namespace);
      }
      match ProjectOf(Facts(Entities(rest)), namespace)
      case None =>
        assert forall j | 0 < j < |listing| :: listing[j] == rest[j - 1];
        assert Kept(listing[0]) && Holds(listing[0], namespace) ==> NotAfter(listing, namespace, 0);
      case Some(id) =>
        var i :| 0 <= i < |rest| && rest[i].id == id && Kept(rest[i]) && Holds(rest[i], namespace)
                 && NotAfter(rest, namespace, i);
        LastShifted(listing, namespace, i);
        assert listing[i + 1] == rest[i];
    }
  }

  /** No project after the `i`th holds the namespace. */
  ghost predicate NotAfter(listing: seq<Project>, namespace: string, i: int) {
    forall j | i < j < |listing| && 0 <= j && Kept(listing[j]) :: !Holds(listing[j], namespace)
  }

  lemma LastShifted(listing: seq<Project>, namespace: string, i: nat)
    requires i + 1 < |listing| && NotAfter(listing[1..], namespace, i)
    ensures NotAfter(listing, namespace, i + 1)
  {
    forall j | i + 1 < j < |listing| && Kept(listing[j]) ensures !Holds(listing[j], namespace) {
      assert listing[j] == listing[1..][j - 1];
    }
  }

  /** A refresh that fails at the `k`th project has read all before it and, if it failed at the namespaces, that
      project's members. */
  lemma {:induction false} PartialRead(listing: seq<Project>, k: nat)
    requires k < |listing| && KeptComplete(listing[..k]) && Kept(listing[k]) && !Complete(listing[k])
    ensures Facts(Entities(listing)) == Facts(Entities(listing[..k])) + ProjectFacts(listing[k])
    decreases k
  {
    hide Facts, Entities, ProjectFacts, Complete;
    EntitiesStep(listing);
    if k == 0 {
      NoListing(listing[..0]);
    } else {
      var rest, before := listing[1..], listing[..k];
      EntitiesStep(before);
      assert before[0] == listing[0] && before[1..] == rest[..k - 1] && rest[k - 1] == listing[k];
      KeptCompleteRest(before);
      PartialRead(rest, k - 1);
      if Kept(listing[0]) {
        var p, head, last := ProjectFacts(listing[0]), Facts(Entities(rest[..k - 1])), ProjectFacts(listing[k]);
        assert p + (head + last) == p + head + last;
      }
    }
  }

  lemma NoListing(listing: seq<Project>)
    requires listing == []
    ensures Facts(Entities(listing)) == []
  {
  }

  lemma KeptCompleteRest(listing: seq<Project>)
    requires listing != [] && KeptComplete(listing)
    ensures KeptComplete(listing[1..]) && (Kept(listing[0]) ==> Complete(listing[0]))
  {
  }

  /** What the cache answers after such a refresh. */
  lemma PartialAnswers(listing: seq<Project>, k: nat, user: string, namespace: string)
    requires k < |listing| && KeptComplete(listing[..k]) && Kept(listing[k]) && !Complete(listing[k])
    ensures ProjectsOf(Facts(Entities(listing)), user)
         == UserBindings(listing[..k], user)
            + if listing[k].members.Some? then ProjectBindings(listing[k], listing[k].members.value, user) else []
    ensures ProjectOf(Facts(Entities(listing)), namespace) == ProjectOf(Facts(Entities(listing[..k])), namespace)
  {
    var p, read := listing[k], Facts(Entities(listing[..k]));
    PartialRead(listing, k);
    CompleteUsers(listing[..k], user);
    ProjectsOfConcat(read, ProjectFacts(p), user);
    ProjectOfConcat(read, ProjectFacts(p), namespace);
    if p.members.Some? {
      MemberFactsIndexed(p, p.members.value, user);
      MemberFactsIndexed(p, p.members.value, namespace);
      assert ProjectFacts(p) == MemberFacts(p, p.members.value);
    }
  }

  /******* Refreshes that fail partway *******/

  /** `read` is what asking about `p` returned, where every question either failed or was answered truly. */
  predicate Answers(p: Project, read: Project) {
    && read.id == p.id && read.name == p.name
    && (read.members.None? || read.members == p.members)
    && (read.namespaces.None? || read.namespaces == p.namespaces)
  }

  /** A refresh that read this directory. */
  predicate Reads(directory: seq<Project>, r: Reading) {
    r.Listed? ==>
      |r.projects| == |directory| && forall i | 0 <= i < |directory| :: Answers(directory[i], r.projects[i])
  }

  lemma ReadsSplit(directory: seq<Project>, read: seq<Project>)
    requires Reads(directory, Listed(read)) && directory != []
    ensures Answers(directory[0], read[0]) && Reads(directory[1..], Listed(read[1..]))
  {
  }

  lemma ReadsJoin(p: Project, directory: seq<Project>, q: Project, read: seq<Project>)
    requires Answers(p, q) && Reads(directory, Listed(read))
    ensures Reads([p] + directory, Listed([q] + read))
  {
  }

  lemma {:induction false} EntitiesAnswer(directory: seq<Project>, read: seq<Project>)
    requires Reads(directory, Listed(read))
    ensures Reads(Entities(directory), Listed(Entities(read)))
  {
    if directory != [] {
      ReadsSplit(directory, read);
      EntitiesAnswer(directory[1..], read[1..]);
      ReadsJoin(directory[0], Entities(directory[1..]), read[0], Entities(read[1..]));
    }
  }

  lemma {:induction false} PrefixRead(directory: seq<Project>, read: seq<Project>)
    requires AllComplete(directory) && Reads(directory, Listed(read))
    ensures Facts(read) <= Facts(directory)
  {
    if directory != [] {
      ReadsSplit(directory, read);
      assert directory[0] in directory;
    }
    if directory != [] && Complete(read[0]) {
      PrefixRead(directory[1..], read[1..]);
    }
  }

  /** Everything there is to know about a directory. */
  function AllFacts(directory: seq<Project>): seq<Fact> {
    Facts(Entities(directory))
  }

  lemma CompleteReading(directory: seq<Project>, read: seq<Project>)
    requires AllComplete(read) && Reads(directory, Listed(read))
    ensures read == directory
  {
    forall i | 0 <= i < |read| ensures read[i] == directory[i] {
      assert read[i] in read && Answers(directory[i], read[i]);
    }
  }

  lemma RefreshedPrefix(directory: seq<Project>, facts: seq<Fact>, r: Reading)
    requires AllComplete(directory) && Reads(directory, r) && facts <= AllFacts(directory)
    ensures Refreshed(facts, r) <= AllFacts(directory)
    ensures Succeeds(r) ==> Refreshed(facts, r) == AllFacts(directory)
  {
    if r.Listed? {
      EntitiesAnswer(directory, r.projects);
      PrefixRead(Entities(directory), Entities(r.projects));
      if Succeeds(r) {
        CompleteReading(Entities(directory), Entities(r.projects));
      }
    }
  }

  /** However many calls are made, and wherever their refreshes fail, the cache holds a prefix of the directory. */
  lemma {:induction false} CallsKeepPrefix(directory: seq<Project>, calls: seq<Call>)
    requires AllComplete(directory) && forall i | 0 <= i < |calls| :: Reads(directory, calls[i].reading)
    ensures FactsAfter(calls) <= AllFacts(directory)
  {
    if calls != [] {
      var earlier, last := calls[..|calls| - 1], calls[|calls| - 1];
      CallsKeepPrefix(directory, earlier);
      RefreshedPrefix(directory, FactsAfter(earlier), last.reading);
    }
  }

  lemma KeepReading(calls: seq<Call>, earlier: seq<Call>)
    requires calls != [] && earlier == calls[..|calls| - 1] && !Refreshes(calls, |earlier|)
    ensures FactsAfter(calls) == FactsAfter(earlier)
    ensures forall j | 0 <= j < |earlier| :: Refreshes(calls, j) <==> Refreshes(earlier, j)
  {
    hide FactsAfter, Facts, Entities, Refreshes;
    LastCall(calls);
    forall j | 0 <= j < |earlier| ensures Refreshes(calls, j) <==> Refreshes(earlier, j) {
      EarlierRefresh(calls, j);
    }
  }

  lemma NewReading(calls: seq<Call>, n: nat)
    requires n + 1 == |calls| && Refreshes(calls, n)
    ensures LastRefresh(calls, n) && FactsAfter(calls) == Facts(Entities(calls[n].reading.projects))
  {
    hide FactsAfter, Facts, Entities, Refreshes;
    LastCall(calls);
  }

  /** When the directory changes between calls, the cache reflects one reading only: the latest that got past the
      listing, among the calls that found no answer. */
  lemma {:induction false} CallsKeepOneReading(calls: seq<Call>)
    ensures if forall i | 0 <= i < |calls| :: !Refreshes(calls, i) then FactsAfter(calls) == []
            else exists i | 0 <= i < |calls| ::
              LastRefresh(calls, i) && FactsAfter(calls) == Facts(Entities(calls[i].reading.projects))
  {
    hide FactsAfter, Facts, Entities, Refreshes, LastRefresh;
    if calls == [] {
      NoCalls();
    } else if Refreshes(calls, |calls| - 1) {
      NewReading(calls, |calls| - 1);
    } else {
      var earlier := calls[..|calls| - 1];
      CallsKeepOneReading(earlier);
      KeepReading(calls, earlier);
      if i :| 0 <= i < |earlier| && LastRefresh(earlier, i)
              && FactsAfter(earlier) == Facts(Entities(earlier[i].reading.projects)) {
        LastRefreshKept(calls, i);
      }
    }
  }

  lemma NoCalls()
    ensures FactsAfter([]) == []
  {
  }

  lemma LastCall(calls: seq<Call>)
    requires calls != []
    ensures FactsAfter(calls)
         == if Refreshes(calls, |calls| - 1) then Facts(Entities(calls[|calls| - 1].reading.projects))
            else FactsAfter(calls[..|calls| - 1])
  {
  }

  lemma EarlierRefresh(calls: seq<Call>, j: nat)
    requires j < |calls| - 1
    ensures Refreshes(calls, j) <==> Refreshes(calls[..|calls| - 1], j)
  {
    assert calls[..|calls| - 1][..j] == calls[..j];
  }

  lemma LastRefreshKept(calls: seq<Call>, i: nat)
    requires i < |calls| - 1 && LastRefresh(calls[..|calls| - 1], i) && !Refreshes(calls, |calls| - 1)
    ensures LastRefresh(calls, i)
  {
    EarlierRefresh(calls, i);
    forall j | i < j < |calls| ensures !Refreshes(calls, j) {
      if j < |calls| - 1 {
        EarlierRefresh(calls, j);
      }
    }
  }

  /** Call `i` found no answer and replaced what the cache held. */
  ghost predicate Refreshes(calls: seq<Call>, i: nat)
    requires i < |calls|
    ensures Refreshes(calls, i) ==> calls[i].reading.Listed?
  {
    var facts := FactsAfter(calls[..i]);
    calls[i].reading.Listed? &&
    match calls[i]
    case Refresh(_) => true
    case ByUser(user, _) => ProjectsOf(facts, user) == []
    case ByNamespace(namespace, _) => OrEmpty(ProjectOf(facts, namespace)) == ""
    case ByProject(projectId, _) => !HasMember(facts, projectId)
  }

  ghost predicate LastRefresh(calls: seq<Call>, i: nat)
    requires i < |calls|
    ensures LastRefresh(calls, i) ==> Refreshes(calls, i)
  {
    Refreshes(calls, i) && forall j | i < j < |calls| :: !Refreshes(calls, j)
  }

  /******* Cached answers *******/

  lemma {:induction false} ProjectsOfPrefix(facts: seq<Fact>, all: seq<Fact>, user: string)
    requires facts <= all
    ensures ProjectsOf(facts, user) <= ProjectsOf(all, user)
  {
    assert all == facts + all[|facts|..];
    ProjectsOfConcat(facts, all[|facts|..], user);
  }

  lemma {:induction false} PlacedFact(facts: seq<Fact>, namespace: string)
    ensures ProjectOf(facts, namespace).Some? ==> Placed(namespace, ProjectOf(facts, namespace).value) in facts
    ensures ProjectOf(facts, namespace).None? ==> forall f | f in facts :: f.Placed? ==> f.namespace != namespace
  {
    if facts != [] {
      PlacedFact(facts[..|facts| - 1], namespace);
    }
  }

  lemma {:induction false} PlacedProject(projects: seq<Project>, namespace: string, id: string)
    requires Placed(namespace, id) in Facts(projects)
    ensures exists p | p in projects :: p.id == id && Holds(p, namespace)
  {
    if Placed(namespace, id) in ProjectFacts(projects[0]) {
      assert Holds(projects[0], namespace);
    } else {
      PlacedProject(projects[1..], namespace, id);
    }
  }

  /** No namespace is listed under two project ids. */
  ghost predicate OneProjectEach(directory: seq<Project>) {
    forall p, q, n | p in directory && q in directory && Holds(p, n) && Holds(q, n) :: p.id == q.id
  }

  lemma OnePlace(directory: seq<Project>, namespace: string, a: string, b: string)
    requires OneProjectEach(directory)
    requires Placed(namespace, a) in AllFacts(directory) && Placed(namespace, b) in AllFacts(directory)
    ensures a == b
  {
    PlacedProject(Entities(directory), namespace, a);
    PlacedProject(Entities(directory), namespace, b);
  }

  /** For a fixed directory, after any calls: a cached list of projects is a prefix of the true list, and a cached
      project is the true one if no namespace is in two projects. */
  lemma {:induction false} CachedAnswers(directory: seq<Project>, calls: seq<Call>, user: string, namespace: string)
    requires AllComplete(directory) && forall i | 0 <= i < |calls| :: Reads(directory, calls[i].reading)
    ensures ProjectsOf(FactsAfter(calls), user) <= UserBindings(directory, user)
    ensures OneProjectEach(directory) && ProjectOf(FactsAfter(calls), namespace).Some? ==>
              ProjectOf(FactsAfter(calls), namespace) == ProjectOf(AllFacts(directory), namespace)
  {
    var facts, all := FactsAfter(calls), AllFacts(directory);
    CallsKeepPrefix(directory, calls);
    ProjectsOfPrefix(facts, all, user);
    forall i | 0 <= i < |directory| ensures Complete(directory[i]) {
      assert directory[i] in directory;
    }
    CompleteUsers(directory, user);
    if OneProjectEach(directory) && ProjectOf(facts, namespace).Some? {
      PlacedFact(facts, namespace);
      PlacedFact(all, namespace);
      OnePlace(directory, namespace, ProjectOf(facts, namespace).value, ProjectOf(all, namespace).value);
    }
  }

  /******* Finding a project's user *******/

  /** After a complete refresh a hit says whether the user's first listed binding to the project makes an owner, and the
      refreshing call whether the user's only binding does. */
  lemma OwnerFlags(listing: seq<Project>, user: string, projectId: string, i: nat)
    requires KeptComplete(listing) && i < |UserBindings(listing, user)|
    requires UserBindings(listing, user)[i].projectId == projectId
    requires forall j | 0 <= j < i :: UserBindings(listing, user)[j].projectId != projectId
    ensures BoundTo(Facts(Entities(listing)), user, projectId)
    ensures HitFlag(Facts(Entities(listing)), user, projectId) == UserBindings(listing, user)[i].isOwner
    ensures RefreshFlag(Facts(Entities(listing)), user)
       <==> UserBindings(listing, user) == [UserBindings(listing, user)[i]] && UserBindings(listing, user)[i].isOwner
  {
    hide Facts, Entities, KeptComplete, UserBindings, ProjectsOf;
    CompleteUsers(listing, user);
    var infos := UserBindings(listing, user);
    assert infos[i] in infos;
    FirstAt(infos, projectId, i);
  }

  /** The two paths agree on the owner flag exactly for a user with one binding or one who is not the owner there. */
  lemma FlagsAgree(facts: seq<Fact>, user: string, projectId: string)
    requires BoundTo(facts, user, projectId)
    ensures HitFlag(facts, user, projectId) == RefreshFlag(facts, user)
       <==> |ProjectsOf(facts, user)| == 1 || !HitFlag(facts, user, projectId)
  {
    var infos := ProjectsOf(facts, user);
    assert FirstBinding(infos, projectId) in infos;
  }

  lemma {:induction false} BoundInfo(facts: seq<Fact>, user: string, info: UserProjectInfo)
    ensures info in ProjectsOf(facts, user) <==> Bound(user, info) in facts
  {
    if facts != [] {
      BoundInfo(facts[..|facts| - 1], user, info);
      assert facts == facts[..|facts| - 1] + [facts[|facts| - 1]];
    }
  }

  ghost predicate Binds(directory: seq<Project>, p: Project, m: Member) {
    p in directory && p.id != "" && p.name != "" && p.members.Some? && m in p.members.value
  }

  /** Some member of some project is recorded as `f`. */
  ghost predicate Records(projects: seq<Project>, f: Fact) {
    exists p, m | p in projects && p.members.Some? && m in p.members.value :: BoundFact(p, m) == f
  }

  lemma MemberRecorded(p: Project, members: seq<Member>, f: Fact)
    ensures f in MemberFacts(p, members) <==> exists m | m in members :: BoundFact(p, m) == f
  {
    if m :| m in members && BoundFact(p, m) == f {
      var i :| 0 <= i < |members| && members[i] == m;
      assert MemberFacts(p, members)[i] == f;
    }
    if f in MemberFacts(p, members) {
      var i :| 0 <= i < |members| && MemberFacts(p, members)[i] == f;
      assert members[i] in members;
    }
  }

  lemma RecordsStep(projects: seq<Project>, f: Fact)
    requires projects != [] && projects[0].members.Some?
    ensures Records(projects, f)
       <==> f in MemberFacts(projects[0], projects[0].members.value) || Records(projects[1..], f)
  {
    MemberRecorded(projects[0], projects[0].members.value, f);
    assert forall p :: p in projects <==> p == projects[0] || p in projects[1..];
  }

  lemma {:induction false} BoundIsListed(projects: seq<Project>, user: string, info: UserProjectInfo)
    requires AllComplete(projects)
    ensures Bound(user, info) in Facts(projects) <==> Records(projects, Bound(user, info))
  {
    if projects != [] {
      assert projects[0] in projects;
      BoundIsListed(projects[1..], user, info);
      RecordsStep(projects, Bound(user, info));
    }
  }

  /** The directory has a binding of `user` to the project. */
  ghost predicate HasBinding(directory: seq<Project>, user: string, projectId: string) {
    exists p, m | Binds(directory, p, m) :: p.id == projectId && m.userId == user
  }

  lemma ListedBindings(directory: seq<Project>, user: string, projectId: string)
    requires AllComplete(directory)
    ensures BoundTo(AllFacts(directory), user, projectId) <==> HasBinding(directory, user, projectId)
  {
    var projects, all := Entities(directory), AllFacts(directory);
    if BoundTo(all, user, projectId) {
      var info :| info in ProjectsOf(all, user) && info.projectId == projectId;
      BoundInfo(all, user, info);
      BoundIsListed(projects, user, info);
      var p, m :| p in projects && p.members.Some? && m in p.members.value && BoundFact(p, m) == Bound(user, info);
      assert Binds(directory, p, m);
    }
    if HasBinding(directory, user, projectId) {
      var p, m :| Binds(directory, p, m) && p.id == projectId && m.userId == user;
      var info := BoundFact(p, m).info;
      BoundIsListed(projects, user, info);
      BoundInfo(all, user, info);
    }
  }

  /** Whatever part of the directory is cached, if a refresh would succeed then a project's user is found exactly if
      the project has a member, or some binding of some project has an empty user id. Unless the answer is that empty
      id, it is a member of the project. */
  lemma FindSucceeds(directory: seq<Project>, facts: seq<Fact>, projectId: string, answer: Option<Owner>)
    requires AllComplete(directory) && facts <= AllFacts(directory)
    requires MayFind(facts, Listed(directory), projectId, answer)
    ensures answer.Some? <==>
            (exists user :: HasBinding(directory, user, projectId)) || (exists id :: HasBinding(directory, "", id))
    ensures answer.Some? && answer.value.user != "" ==> HasBinding(directory, answer.value.user, projectId)
  {
    var all := AllFacts(directory);
    forall user
      ensures BoundTo(all, user, projectId) <==> HasBinding(directory, user, projectId)
      ensures BoundTo(facts, user, projectId) ==> BoundTo(all, user, projectId)
    {
      ListedBindings(directory, user, projectId);
      ProjectsOfPrefix(facts, all, user);
    }
    assert Succeeds(Listed(directory));
    assert HasMember(all, projectId) <==> exists user :: HasBinding(directory, user, projectId);
    EmptyUser(directory);
  }

  lemma EmptyUser(directory: seq<Project>)
    requires AllComplete(directory)
    ensures ProjectsOf(AllFacts(directory), "") != [] <==> exists id :: HasBinding(directory, "", id)
  {
    var infos := ProjectsOf(AllFacts(directory), "");
    if infos != [] {
      assert BoundTo(AllFacts(directory), "", infos[0].projectId);
      ListedBindings(directory, "", infos[0].projectId);
    }
    forall id | HasBinding(directory, "", id) ensures infos != [] {
      ListedBindings(directory, "", id);
    }
  }

  /** A group's binding has no user id: with one of those in the directory, a project without members is given an
      owner all the same. */
  lemma GroupBindingExample() returns (directory: seq<Project>, answer: Option<Owner>)
    ensures AllComplete(directory) && MayFind([], Listed(directory), "empty", answer)
    ensures answer.Some? && !exists user :: HasBinding(directory, user, "empty")
  {
    var group := Member("b", "", "p", GROUP, "openldap_group://cn=g", "project-owner");
    var p := Project("p", "p", Some([group]), Some([]));
    var q := Project("empty", "q", Some([]), Some([]));
    directory := [p, q];
    assert directory[1..] == [q] && [q][1..] == [];
    assert Entities([q]) == [q] && Entities(directory) == [p, q];
    var all := AllFacts(directory);
    assert Binds(directory, p, group);
    assert HasBinding(directory, "", "p");
    EmptyUser(directory);
    answer := Some(Owner("", RefreshFlag(all, "")));
    forall user ensures !HasBinding(directory, user, "empty") && !BoundTo([], user, "empty") {
      assert ProjectsOf([], user) == [];
    }
    forall user ensures !BoundTo(all, user, "empty") {
      ListedBindings(directory, user, "empty");
    }
  }
}
