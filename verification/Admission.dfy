/** The admission webhook: pods get the limits they lack, and namespaces are put into their creator's project. */
module Admission {
  import opened Wrappers
  import opened Decimals
  import opened JsonPatch
  import opened ProjectResolver

  /******* Reading the objects under review *******/

  /** A member that is absent or null reads as nothing. */
  function Field(j: Json, key: string): Option<Json> {
    if j.Object? && key in j.fields && j.fields[key] != Null then Some(j.fields[key]) else None
  }

  type Amounts = map<string, int>

  predicate Leaf(j: Json) {
    j.Quantity? || j.Null?
  }

  function AmountOf(j: Json): int {
    if j.Quantity? then j.amount else 0
  }

  /** A resource list: an object of quantities, or nothing at all. */
  predicate IsAmounts(j: Option<Json>) {
    j.Some? ==> j.value.Object? && forall k | k in j.value.fields :: Leaf(j.value.fields[k])
  }

  function ReadAmounts(j: Option<Json>): Option<Amounts>
    requires IsAmounts(j)
  {
    match j
    case Some(Object(fields)) => Some(map k | k in fields :: AmountOf(fields[k]))
    case None => None
  }

  function ResourceList(container: Json, name: string): Option<Json> {
    match Field(container, "resources")
    case Some(resources) => Field(resources, name)
    case None => None
  }

  datatype Container = Container(requests: Option<Amounts>, limits: Option<Amounts>)

  predicate IsContainer(j: Json) {
    && j.Object? && (Field(j, "resources").Some? ==> Field(j, "resources").value.Object?)
    && IsAmounts(ResourceList(j, "requests")) && IsAmounts(ResourceList(j, "limits"))
  }

  function ReadContainer(j: Json): Container
    requires IsContainer(j)
  {
    Container(ReadAmounts(ResourceList(j, "requests")), ReadAmounts(ResourceList(j, "limits")))
  }

  predicate HasContainers(doc: Json) {
    Field(doc, "spec").Some? && Field(Field(doc, "spec").value, "containers").Some?
  }

  function Items(doc: Json): seq<Json> {
    if HasContainers(doc) && Field(Field(doc, "spec").value, "containers").value.Array?
    then Field(Field(doc, "spec").value, "containers").value.items
    else []
  }

  /** Documents that unmarshal into a pod. */
  predicate IsPod(doc: Json) {
    && doc.Object?
    && (Field(doc, "spec").Some? ==> Field(doc, "spec").value.Object?)
    && (HasContainers(doc) ==> Field(Field(doc, "spec").value, "containers").value.Array?)
    && forall c | c in Items(doc) :: IsContainer(c)
  }

  function Containers(doc: Json): (containers: seq<Container>)
    requires IsPod(doc)
    ensures |containers| == |Items(doc)|
    ensures forall i | 0 <= i < |containers| :: containers[i] == ReadContainer(Items(doc)[i])
  {
    seq(|Items(doc)|, i requires 0 <= i < |Items(doc)| => ReadContainer(Items(doc)[i]))
  }

  /** Documents that unmarshal into a namespace. */
  predicate IsNamespace(doc: Json) {
    && doc.Object?
    && (Field(doc, "metadata").Some? ==> Field(doc, "metadata").value.Object?)
    && (MetadataField(doc, "name").Some? ==> MetadataField(doc, "name").value.Text?)
    && (MetadataField(doc, "annotations").Some? ==>
          var annotations := MetadataField(doc, "annotations").value;
          annotations.Object? && forall k | k in annotations.fields :: annotations.fields[k].Text?)
  }

  function MetadataField(doc: Json, name: string): Option<Json> {
    match Field(doc, "metadata")
    case Some(metadata) => Field(metadata, name)
    case None => None
  }

  function NamespaceName(doc: Json): string
    requires IsNamespace(doc)
  {
    if MetadataField(doc, "name").Some? then MetadataField(doc, "name").value.text else ""
  }

  function Annotations(doc: Json): map<string, Json>
    requires IsNamespace(doc)
  {
    if MetadataField(doc, "annotations").Some? then MetadataField(doc, "annotations").value.fields else map[]
  }

  /******* The pod rule *******/

  /** Some requested resource has a higher limit. */
  predicate Excess(c: Container, k: string) {
    && c.requests.Some? && c.limits.Some? && k in c.requests.value && k in c.limits.value
    && c.limits.value[k] > c.requests.value[k]
  }

  predicate Acceptable(c: Container) {
    c.requests.Some? && forall k | k in c.requests.value :: !Excess(c, k)
  }

  /** Requested resources without a limit. */
  function Missing(c: Container): set<string> {
    if c.requests.None? then {}
    else c.requests.value.Keys - if c.limits.Some? then c.limits.value.Keys else {}
  }

  /** The path /spec/containers/i/resources/limits/k; the name `k` goes in as it is. */
  function LimitPointer(i: nat, k: string): string {
    "/" + ("spec" + "/" + "containers" + "/" + Decimal(i) + "/" + "resources" + "/" + "limits" + "/" + k)
  }

  function AddLimit(i: nat, k: string, amount: int): Operation {
    Add(LimitPointer(i, k), Quantity(amount))
  }

  /** Container and resource of an operation in a patch. */
  type Site = (nat, string)

  predicate IsSite(cs: seq<Container>, s: Site) {
    s.0 < |cs| && s.1 in Missing(cs[s.0])
  }

  function OperationAt(cs: seq<Container>, s: Site): Operation
    requires IsSite(cs, s)
  {
    AddLimit(s.0, s.1, cs[s.0].requests.value[s.1])
  }

  /** The patch has one operation for each missing limit, in some order. */
  ghost predicate Emits(cs: seq<Container>, ops: seq<Operation>, sites: seq<Site>) {
    && |ops| == |sites|
    && (forall j | 0 <= j < |sites| :: IsSite(cs, sites[j]) && ops[j] == OperationAt(cs, sites[j]))
    && (forall i, j | 0 <= i < j < |sites| :: sites[i] != sites[j])
    && (forall s: Site | IsSite(cs, s) :: s in sites)
  }

  datatype Reason = LimitAboveRequest(container: nat, resource: string)
                  | RequestsMissing(container: nat)
                  | WrongPrefix(project: string)

  ghost predicate AnyExcess(c: Container) {
    exists k :: Excess(c, k)
  }

  /** A later container with an excess overrides the reason; missing requests are reported only as the first fault. */
  ghost predicate Reports(cs: seq<Container>, reason: Reason) {
    match reason
    case LimitAboveRequest(i, k) =>
      i < |cs| && Excess(cs[i], k) && forall j | i < j < |cs| :: !AnyExcess(cs[j])
    case RequestsMissing(i) =>
      && i < |cs| && cs[i].requests.None? && (forall j | 0 <= j < i :: Acceptable(cs[j]))
      && forall j | 0 <= j < |cs| :: !AnyExcess(cs[j])
    case WrongPrefix(_) => false
  }

  method ReviewContainers(cs: seq<Container>)
    returns (allowed: bool, reason: Reason, patchOps: seq<Operation>, ghost sites: seq<Site>)
    ensures allowed <==> forall i | 0 <= i < |cs| :: Acceptable(cs[i])
    ensures !allowed ==> Reports(cs, reason)
    ensures Emits(cs, patchOps, sites)
  {
    hide Emits, Reports, EmitsFor;
    allowed, reason, patchOps, sites := true, RequestsMissing(0), [], [];
    NothingEmitted();
    for i := 0 to |cs|
      invariant allowed <==> forall j | 0 <= j < i :: Acceptable(cs[j])
      invariant !allowed ==> Reports(cs[..i], reason)
      invariant Emits(cs[..i], patchOps, sites)
    {
      var more, excess;
      ghost var keys;
      more, excess, keys := ReviewContainer(i, cs[i]);
      NextEmitted(cs, i, patchOps, sites, more, keys);
      NextReason(cs[..i], cs[i], reason);
      assert cs[..i + 1] == cs[..i] + [cs[i]];
      patchOps := patchOps + more;
      sites := sites + SitesIn(i, keys);
      if excess.Some? {
        allowed, reason := false, LimitAboveRequest(i, excess.value);
      }
      if allowed && cs[i].requests.None? {
        allowed, reason := false, RequestsMissing(i);
      }
    }
    assert cs[..|cs|] == cs;
  }

  /** One container's requests, in whatever order the map gives them. */
  method ReviewContainer(i: nat, c: Container)
    returns (ops: seq<Operation>, excess: Option<string>, ghost keys: seq<string>)
    ensures excess.Some? <==> AnyExcess(c)
    ensures excess.Some? ==> Excess(c, excess.value)
    ensures EmitsFor(i, c, ops, keys)
  {
    ops, excess, keys := [], None, [];
    if c.requests.None? {
      return;
    }
    var rest := c.requests.value.Keys;
    while rest != {}
      invariant rest <= c.requests.value.Keys
      invariant excess.None? ==> forall k | k in c.requests.value.Keys - rest :: !Excess(c, k)
      invariant excess.Some? ==> Excess(c, excess.value)
      invariant |ops| == |keys|
      invariant forall j | 0 <= j < |keys| ::
        keys[j] in Missing(c) - rest && ops[j] == AddLimit(i, keys[j], c.requests.value[keys[j]])
      invariant forall j, l | 0 <= j < l < |keys| :: keys[j] != keys[l]
      invariant forall k | k in Missing(c) - rest :: k in keys
      decreases |rest|
    {
      var k :| k in rest;
      rest := rest - {k};
      if c.limits.Some? && k in c.limits.value {
        if c.limits.value[k] > c.requests.value[k] {
          excess := Some(k);
        }
      } else {
        ops := ops + [AddLimit(i, k, c.requests.value[k])];
        keys := keys + [k];
      }
    }
  }

  function SitesIn(i: nat, keys: seq<string>): (sites: seq<Site>)
    ensures |sites| == |keys| && forall j | 0 <= j < |sites| :: sites[j] == (i, keys[j])
  {
    seq(|keys|, j requires 0 <= j < |keys| => (i, keys[j]))
  }

  ghost predicate EmitsFor(i: nat, c: Container, ops: seq<Operation>, keys: seq<string>) {
    && |ops| == |keys|
    && (forall j | 0 <= j < |keys| ::
          keys[j] in Missing(c) && ops[j] == AddLimit(i, keys[j], c.requests.value[keys[j]]))
    && (forall j, l | 0 <= j < l < |keys| :: keys[j] != keys[l])
    && (forall k | k in Missing(c) :: k in keys)
  }

  lemma NothingEmitted()
    ensures Emits([], [], [])
  {
  }

  lemma NextEmitted(cs: seq<Container>, i: nat, ops: seq<Operation>, sites: seq<Site>, more: seq<Operation>,
                    keys: seq<string>)
    requires i < |cs| && Emits(cs[..i], ops, sites) && EmitsFor(i, cs[i], more, keys)
    ensures Emits(cs[..i + 1], ops + more, sites + SitesIn(i, keys))
  {
    var all := sites + SitesIn(i, keys);
    forall s: Site | IsSite(cs[..i + 1], s) ensures s in all {
      if s.0 < i {
        assert IsSite(cs[..i], s);
      } else {
        var j :| 0 <= j < |keys| && keys[j] == s.1;
        assert all[|sites| + j] == s;
      }
    }
    forall j | 0 <= j < |all|
      ensures IsSite(cs[..i + 1], all[j]) && (ops + more)[j] == OperationAt(cs[..i + 1], all[j])
    {
      if j < |sites| {
        assert IsSite(cs[..i], sites[j]);
      }
    }
    forall j, l | 0 <= j < l < |all| ensures all[j] != all[l] {
      if j < |sites| {
        assert IsSite(cs[..i], sites[j]);
      }
    }
  }

  lemma NextReason(cs: seq<Container>, c: Container, reason: Reason)
    ensures Reports(cs, reason) && !AnyExcess(c) ==> Reports(cs + [c], reason)
    ensures forall k | Excess(c, k) :: Reports(cs + [c], LimitAboveRequest(|cs|, k))
    ensures (forall j | 0 <= j < |cs| :: Acceptable(cs[j])) && c.requests.None? ==>
              Reports(cs + [c], RequestsMissing(|cs|))
  {
  }

  /******* The webhook *******/

  /** A patch goes with an allowed request only. A request that is ignored gets an empty answer. */
  datatype Response = Failed | Ignored | Allowed(patch: seq<Operation>) | Denied(reason: Reason)

  /** The path /metadata/annotations. */
  const ANNOTATIONS_PATH := "/" + ("metadata" + "/" + "annotations")

  const PROJECT_ANNOTATION := "field.cattle.io/projectId"

  function Annotated(doc: Json, projectId: string): map<string, Json>
    requires IsNamespace(doc)
  {
    Annotations(doc)[PROJECT_ANNOTATION := Text(projectId)]
  }

  /** The answer for a namespace whose creator is known to have these bindings. */
  function NamespaceAnswer(doc: Json, plist: seq<UserProjectInfo>): Response {
    if |plist| != 1 || plist[0].isOwner then Ignored
    else if !IsNamespace(doc) then Failed
    else if !(plist[0].projectName <= NamespaceName(doc)) then Denied(WrongPrefix(plist[0].projectName))
    else Allowed([Add(ANNOTATIONS_PATH, Object(Annotated(doc, plist[0].projectId)))])
  }

  /** The answer for a pod in a normal user's project. */
  ghost predicate PodAnswer(doc: Json, answer: Response)
    requires IsPod(doc)
  {
    match answer
    case Allowed(patch) =>
      (forall c | c in Containers(doc) :: Acceptable(c)) && exists sites :: Emits(Containers(doc), patch, sites)
    case Denied(reason) =>
      (exists c | c in Containers(doc) :: !Acceptable(c)) && Reports(Containers(doc), reason)
    case _ => false
  }

  method Copied(annotations: map<string, Json>) returns (kvp: map<string, Json>)
    ensures kvp == annotations
  {
    kvp := map[];
    var rest := annotations.Keys;
    while rest != {}
      invariant rest <= annotations.Keys
      invariant kvp == map k | k in annotations && k !in rest :: annotations[k]
      decreases |rest|
    {
      var k :| k in rest;
      rest := rest - {k};
      kvp := kvp[k := annotations[k]];
    }
  }

  class Webhook {
    const resolver: Resolver

    constructor (resolver: Resolver)
      ensures this.resolver == resolver
    {
      this.resolver := resolver;
    }

    method ReviewNamespace(user: string, doc: Json, r: Reading) returns (answer: Response)
      requires resolver.Valid()
      modifies resolver
      ensures resolver.Valid() && resolver.facts == NextFacts(old(resolver.facts), ByUser(user, r))
      ensures answer == if ProjectsOf(old(resolver.facts), user) == [] && !Succeeds(r) then Failed
                        else NamespaceAnswer(doc, ProjectsOf(resolver.facts, user))
      ensures var plist := ProjectsOf(resolver.facts, user);
              ProjectsOf(old(resolver.facts), user) != [] || Succeeds(r) ==>
                && (|plist| == 0 || |plist| > 1 || plist[0].isOwner ==> answer == Ignored)
                && (|plist| == 1 && !plist[0].isOwner ==>
                      answer != Ignored && (answer == Failed <==> !IsNamespace(doc)))
    {
      hide ProjectsOf, NextFacts, IsNamespace, NamespaceName, Annotations;
      var plist, ok := resolver.ResolveProjectsByUser(user, r);
      if !ok {
        return Failed;
      }
      if |plist| > 1 {
        return Ignored;
      }
      if |plist| == 0 {
        return Ignored;
      }
      if plist[0].isOwner {
        return Ignored;
      }
      if !IsNamespace(doc) {
        return Failed;
      }
      if !(plist[0].projectName <= NamespaceName(doc)) {
        return Denied(WrongPrefix(plist[0].projectName));
      }
      var kvp := Copied(Annotations(doc));
      kvp := kvp[PROJECT_ANNOTATION := Text(plist[0].projectId)];
      return Allowed([Add(ANNOTATIONS_PATH, Object(kvp))]);
    }

    method ReviewPod(namespace: string, doc: Json, r: Reading, r': Reading)
      returns (answer: Response, ghost project: string, ghost owner: Option<Owner>)
      requires resolver.Valid()
      modifies resolver
      ensures resolver.Valid()
      ensures !IsPod(doc) ==> answer == Failed && resolver.facts == old(resolver.facts)
      ensures IsPod(doc) ==>
                var cached := OrEmpty(ProjectOf(old(resolver.facts), namespace));
                var facts := NextFacts(old(resolver.facts), ByNamespace(namespace, r));
                && project == (if cached != "" || Succeeds(r) then OrEmpty(ProjectOf(facts, namespace)) else "")
                && resolver.facts == (if project == "" then facts else NextFacts(facts, ByProject(project, r')))
                && (project != "" ==> MayFind(facts, r', project, owner))
                && if project == "" || owner.None? || owner.value.isOwner then answer == Allowed([])
                   else PodAnswer(doc, answer)
    {
      project, owner := "", None;
      if !IsPod(doc) {
        return Failed, project, owner;
      }
      var projectId, hit, ok := resolver.ResolveProjectIdByNamespace(namespace, r);
      project := projectId;
      if projectId == "" {
        return Allowed([]), project, owner;
      }
      var found := resolver.FindUserByProject(projectId, r');
      owner := found;
      if found.None? || found.value.isOwner {
        return Allowed([]), project, owner;
      }
      var allowed, reason, patchOps, sites := ReviewContainers(Containers(doc));
      if allowed {
        answer := Allowed(patchOps);
      } else {
        answer := Denied(reason);
      }
    }
  }
}
