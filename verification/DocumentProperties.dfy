/** What the webhook's decisions and patches mean in terms of the documents alone, looked up by path. */
module DocumentProperties {
  import opened Wrappers
  import opened Decimals
  import opened JsonPatch
  import opened ProjectResolver
  import opened Admission
  import opened PatchProperties

  /******* Reading by path *******/

  lemma GetConcat(doc: Json, a: seq<string>, b: seq<string>)
    ensures Get(doc, a + b) == match Get(doc, a) case Some(j) => Get(j, b) case None => None
    decreases |a|
  {
    if a == [] {
      assert a + b == b;
    } else {
      assert (a + b)[0] == a[0] && (a + b)[1..] == a[1..] + b;
      match doc
      case Object(fields) =>
        if a[0] in fields { GetConcat(fields[a[0]], a[1..], b); }
      case Array(items) =>
        if Index(a[0]).Some? && Index(a[0]).value < |items| { GetConcat(items[Index(a[0]).value], a[1..], b); }
      case _ =>
    }
  }

  lemma GetField(j: Json, key: string)
    ensures Get(j, [key]) == if j.Object? && key in j.fields then Some(j.fields[key])
                             else if j.Array? && Index(key).Some? && Index(key).value < |j.items|
                             then Some(j.items[Index(key).value]) else None
  {
    assert [key][1..] == [];
  }

  lemma IndexDecimal(i: nat)
    ensures Index(Decimal(i)) == Some(i)
  {
    ParsePrinted(i);
  }

  /** The `i`th container is what the document has there. */
  lemma GetContainer(doc: Json, i: nat)
    requires IsPod(doc)
    ensures Get(doc, ["spec", "containers", Decimal(i)]) == if i < |Items(doc)| then Some(Items(doc)[i]) else None
  {
    IndexDecimal(i);
    GetField(doc, "spec");
    GetConcat(doc, ["spec"], ["containers"]);
    GetConcat(doc, ["spec", "containers"], [Decimal(i)]);
    assert ["spec"] + ["containers"] == ["spec", "containers"];
    assert ["spec", "containers"] + [Decimal(i)] == ["spec", "containers", Decimal(i)];
    if Get(doc, ["spec"]).Some? {
      GetField(Get(doc, ["spec"]).value, "containers");
    }
    if Get(doc, ["spec", "containers"]).Some? {
      GetField(Get(doc, ["spec", "containers"]).value, Decimal(i));
    }
  }

  /** A container's resource list and its entries are what the container has there; null stands for nothing. */
  lemma GetResource(c: Json, list: string, k: string)
    requires IsContainer(c) && (list == "requests" || list == "limits")
    ensures ResourceList(c, list).Some?
       <==> Get(c, ["resources", list]).Some? && Get(c, ["resources", list]).value.Object?
    ensures Get(c, ["resources", list, k])
         == if ResourceList(c, list).Some? && k in ResourceList(c, list).value.fields
            then Some(ResourceList(c, list).value.fields[k]) else None
  {
    GetField(c, "resources");
    GetConcat(c, ["resources"], [list]);
    GetConcat(c, ["resources", list], [k]);
    assert ["resources"] + [list] == ["resources", list] && ["resources", list] + [k] == ["resources", list, k];
    if Get(c, ["resources"]).Some? {
      GetField(Get(c, ["resources"]).value, list);
    }
    if Get(c, ["resources", list]).Some? {
      GetField(Get(c, ["resources", list]).value, k);
    }
  }

  /** The amount of an entry as it is read. */
  lemma ReadEntry(j: Option<Json>, k: string)
    requires IsAmounts(j)
    ensures var amounts := ReadAmounts(j);
            && (amounts.Some? <==> j.Some?)
            && (j.Some? ==> (k in amounts.value <==> k in j.value.fields))
            && (j.Some? && k in j.value.fields && j.value.fields[k].Quantity? ==>
                  amounts.value[k] == j.value.fields[k].amount)
            && (j.Some? && k in j.value.fields && j.value.fields[k].Null? ==> amounts.value[k] == 0)
  {
  }

  /** An entry stands for its amount, and a null entry for zero. */
  predicate Says(entry: Option<Json>, amount: int) {
    entry == Some(Quantity(amount)) || (entry == Some(Null) && amount == 0)
  }

  lemma RequestRead(c: Json, k: string)
    requires IsContainer(c)
    ensures var requests, entry := ReadContainer(c).requests, Get(c, ["resources", "requests", k]);
            && (requests.Some?
                <==> Get(c, ["resources", "requests"]).Some? && Get(c, ["resources", "requests"]).value.Object?)
            && (requests.Some? && k in requests.value <==> entry.Some?)
            && (entry.Some? ==> forall amount :: Says(entry, amount) <==> amount == requests.value[k])
  {
    GetResource(c, "requests", k);
    ReadEntry(ResourceList(c, "requests"), k);
  }

  lemma LimitRead(c: Json, k: string)
    requires IsContainer(c)
    ensures var limits, entry := ReadContainer(c).limits, Get(c, ["resources", "limits", k]);
            && (limits.Some? && k in limits.value <==> entry.Some?)
            && (entry.Some? ==> forall amount :: Says(entry, amount) <==> amount == limits.value[k])
  {
    GetResource(c, "limits", k);
    ReadEntry(ResourceList(c, "limits"), k);
  }

  /******* Decisions *******/

  /** The container's limit of a resource is above its request. */
  ghost predicate TooHigh(c: Json, k: string) {
    exists request, limit ::
      && Says(Get(c, ["resources", "requests", k]), request) && Says(Get(c, ["resources", "limits", k]), limit)
      && limit > request
  }

  predicate HasRequests(c: Json) {
    Get(c, ["resources", "requests"]).Some? && Get(c, ["resources", "requests"]).value.Object?
  }

  lemma ExcessExactly(c: Json, k: string)
    requires IsContainer(c)
    ensures Excess(ReadContainer(c), k) <==> TooHigh(c, k)
  {
    RequestRead(c, k);
    LimitRead(c, k);
    var read := ReadContainer(c);
    if Excess(read, k) {
      var request, limit := read.requests.value[k], read.limits.value[k];
      assert Says(Get(c, ["resources", "requests", k]), request) && Says(Get(c, ["resources", "limits", k]), limit);
    }
  }

  /** A container is acceptable exactly if it has requests, and no limit is above the request of the same resource. */
  lemma AcceptableExactly(c: Json)
    requires IsContainer(c)
    ensures Acceptable(ReadContainer(c)) <==> HasRequests(c) && forall k :: !TooHigh(c, k)
  {
    hide TooHigh, Excess;
    RequestRead(c, "");
    forall k ensures Excess(ReadContainer(c), k) <==> TooHigh(c, k) {
      ExcessExactly(c, k);
    }
    forall k | ReadContainer(c).requests.Some? && k !in ReadContainer(c).requests.value
      ensures !Excess(ReadContainer(c), k)
    {
      NoExcess(ReadContainer(c), k);
    }
  }

  lemma NoExcess(c: Container, k: string)
    requires c.requests.Some? && k !in c.requests.value
    ensures !Excess(c, k)
  {
  }

  lemma PodContainer(doc: Json, i: nat, path: seq<string>)
    requires IsPod(doc)
    ensures Get(doc, ["spec", "containers", Decimal(i)]).Some? <==> i < |Items(doc)|
    ensures Get(doc, ["spec", "containers", Decimal(i)] + path)
         == if i < |Items(doc)| then Get(Items(doc)[i], path) else None
  {
    GetContainer(doc, i);
    GetConcat(doc, ["spec", "containers", Decimal(i)], path);
  }

  lemma AllowedContainer(doc: Json, answer: Response, i: nat)
    requires IsPod(doc) && PodAnswer(doc, answer) && answer.Allowed? && i < |Items(doc)|
    ensures IsContainer(Items(doc)[i]) && Acceptable(ReadContainer(Items(doc)[i]))
  {
    assert Items(doc)[i] in Items(doc) && Containers(doc)[i] in Containers(doc);
  }

  lemma NotTooHigh(c: Json, k: string, request: int, limit: int)
    requires !TooHigh(c, k)
    requires Get(c, ["resources", "requests", k]) == Some(Quantity(request))
    requires Get(c, ["resources", "limits", k]) == Some(Quantity(limit))
    ensures limit <= request
  {
    assert Says(Get(c, ["resources", "requests", k]), request) && Says(Get(c, ["resources", "limits", k]), limit);
  }

  /** Every container of a pod that is let in has requests, and no limit in the document is above its request. */
  lemma AllowedPod(doc: Json, answer: Response, i: nat, k: string, request: int, limit: int)
    requires IsPod(doc) && PodAnswer(doc, answer) && answer.Allowed?
    requires Get(doc, ["spec", "containers", Decimal(i)]).Some?
    ensures Get(doc, ["spec", "containers", Decimal(i)] + ["resources", "requests"]).Some?
    ensures Get(doc, ["spec", "containers", Decimal(i)] + ["resources", "requests", k]) == Some(Quantity(request))
            && Get(doc, ["spec", "containers", Decimal(i)] + ["resources", "limits", k]) == Some(Quantity(limit)) ==>
              limit <= request
  {
    hide Get, IsPod, PodAnswer, IsContainer, ReadContainer, Acceptable, TooHigh, Items;
    PodContainer(doc, i, ["resources", "requests"]);
    PodContainer(doc, i, ["resources", "requests", k]);
    PodContainer(doc, i, ["resources", "limits", k]);
    AllowedContainer(doc, answer, i);
    var c := Items(doc)[i];
    AcceptableExactly(c);
    if Get(c, ["resources", "requests", k]) == Some(Quantity(request))
       && Get(c, ["resources", "limits", k]) == Some(Quantity(limit)) {
      NotTooHigh(c, k, request, limit);
    }
  }

  /** A pod that is denied has a container without requests, or one with a limit above its request. */
  lemma DeniedPod(doc: Json, answer: Response) returns (i: nat)
    requires IsPod(doc) && PodAnswer(doc, answer) && answer.Denied?
    ensures i < |Items(doc)| && Get(doc, ["spec", "containers", Decimal(i)]) == Some(Items(doc)[i])
    ensures !HasRequests(Items(doc)[i]) || exists k :: TooHigh(Items(doc)[i], k)
  {
    var cs := Containers(doc);
    var c :| c in cs && !Acceptable(c);
    i :| 0 <= i < |cs| && cs[i] == c;
    assert Items(doc)[i] in Items(doc);
    GetContainer(doc, i);
    AcceptableExactly(Items(doc)[i]);
  }

  /******* Patches *******/

  /** A value that has no members. */
  predicate Scalar(j: Json) {
    !j.Object? && !j.Array?
  }

  lemma GetSet(fields: map<string, Json>, key: string, value: Json, path: seq<string>)
    requires path != []
    ensures Get(Object(fields[key := value]), path)
         == if path[0] == key then Get(value, path[1..]) else Get(Object(fields), path)
  {
  }

  lemma ScalarGet(j: Json, path: seq<string>)
    requires Scalar(j)
    ensures Get(j, path) == if path == [] then Some(j) else None
  {
  }

  lemma AddedEntry(limits: map<string, Json>, extra: map<string, Json>, path: seq<string>, leaf: Json)
    requires Scalar(leaf) && limits.Keys !! extra.Keys && forall k | k in extra :: Leaf(extra[k])
    ensures Get(Object(limits + extra), path) == Some(leaf) <==>
            Get(Object(limits), path) == Some(leaf) || (|path| == 1 && path[0] in extra && extra[path[0]] == leaf)
  {
    if path != [] && path[0] in extra {
      ScalarGet(extra[path[0]], path[1..]);
    }
  }

  /** Among the scalars of a container, `WithLimits` adds the new limits and changes nothing. */
  lemma ContainerScalars(c: Json, extra: map<string, Json>, path: seq<string>, leaf: Json)
    requires IsContainer(c) && Scalar(leaf) && LimitFields(c).Some?
    requires LimitFields(c).value.Keys !! extra.Keys && forall k | k in extra :: Leaf(extra[k])
    ensures Get(WithLimits(c, extra), path) == Some(leaf) <==>
            || Get(c, path) == Some(leaf)
            || (|path| == 3 && path[0] == "resources" && path[1] == "limits"
                && path[2] in extra && extra[path[2]] == leaf)
  {
    var resources := c.fields["resources"].fields;
    var limits := resources["limits"].fields;
    var changed := resources["limits" := Object(limits + extra)];
    if path != [] {
      GetSet(c.fields, "resources", Object(changed), path);
      if |path| > 1 {
        GetSet(resources, "limits", Object(limits + extra), path[1..]);
        AddedEntry(limits, extra, path[2..], leaf);
        assert path[1..][1..] == path[2..];
      }
    }
  }

  /** Outside its containers a document with other containers is the same. */
  lemma ItemScalars(doc: Json, items: seq<Json>, path: seq<string>, leaf: Json)
    requires IsPod(doc) && HasContainers(doc) && Scalar(leaf)
    ensures Get(WithItems(doc, items), path) == Some(leaf) <==>
            if |path| >= 3 && path[0] == "spec" && path[1] == "containers"
            then Index(path[2]).Some? && Index(path[2]).value < |items|
                 && Get(items[Index(path[2]).value], path[3..]) == Some(leaf)
            else Get(doc, path) == Some(leaf)
  {
    var spec := doc.fields["spec"].fields;
    if path != [] {
      GetSet(doc.fields, "spec", Object(spec["containers" := Array(items)]), path);
      if |path| > 1 {
        GetSet(spec, "containers", Array(items), path[1..]);
        assert path[1..][1..] == path[2..];
        if |path| > 2 {
          assert path[2..][1..] == path[3..];
        } else if path[0] == "spec" && path[1] == "containers" {
          assert path[1..] == ["containers"];
          GetField(Object(spec), "containers");
        }
      }
    }
  }

  /** A scalar of a patched pod is one that was there, or a missing limit, equal to the request in the document. */
  ghost predicate AddedScalar(doc: Json, path: seq<string>, leaf: Json)
    requires IsPod(doc)
  {
    exists i: nat, k ::
      && path == ["spec", "containers", Decimal(i), "resources", "limits", k]
      && i < |Items(doc)| && Get(Items(doc)[i], ["resources", "limits", k]) == None
      && (exists amount :: Says(Get(Items(doc)[i], ["resources", "requests", k]), amount) && leaf == Quantity(amount))
  }

  lemma WantedLimit(doc: Json, i: nat, k: string, leaf: Json)
    requires IsPod(doc) && i < |Items(doc)|
    ensures var extra := WantedLimits(Containers(doc))[i];
            (k in extra && extra[k] == leaf) <==>
            && Get(Items(doc)[i], ["resources", "limits", k]) == None
            && exists amount ::
                 Says(Get(Items(doc)[i], ["resources", "requests", k]), amount) && leaf == Quantity(amount)
  {
    var c := Items(doc)[i];
    assert c in Items(doc);
    RequestRead(c, k);
    LimitRead(c, k);
    var cs := Containers(doc);
    if k in Missing(cs[i]) {
      assert Says(Get(c, ["resources", "requests", k]), cs[i].requests.value[k]);
    }
  }

  lemma WantedAbsent(doc: Json, i: nat)
    requires IsPod(doc) && i < |Items(doc)| && LimitFields(Items(doc)[i]).Some?
    ensures LimitFields(Items(doc)[i]).value.Keys !! WantedLimits(Containers(doc))[i].Keys
  {
    forall k | k in WantedLimits(Containers(doc))[i] ensures k !in LimitFields(Items(doc)[i]).value {
      MissingAbsent(doc, i, k);
    }
  }

  /** Within one container. */
  lemma PatchedItem(doc: Json, i: nat, path: seq<string>, leaf: Json)
    requires IsPod(doc) && Patchable(doc) && i < |Items(doc)| && Scalar(leaf)
    ensures Get(WithLimits(Items(doc)[i], WantedLimits(Containers(doc))[i]), path) == Some(leaf) <==>
            || Get(Items(doc)[i], path) == Some(leaf)
            || (exists k :: path == ["resources", "limits", k] && k in WantedLimits(Containers(doc))[i]
                            && WantedLimits(Containers(doc))[i][k] == leaf)
  {
    hide Get;
    var c, extra := Items(doc)[i], WantedLimits(Containers(doc))[i];
    assert c in Items(doc);
    if LimitFields(c).Some? {
      WantedAbsent(doc, i);
      ContainerScalars(c, extra, path, leaf);
      if |path| == 3 && path[0] == "resources" && path[1] == "limits" {
        assert path == ["resources", "limits", path[2]];
      }
    } else {
      forall k ensures k !in extra {
        assert IsSite(Containers(doc), (i, k)) <==> k in Missing(Containers(doc)[i]);
      }
    }
  }

  lemma PatchedItems(doc: Json)
    requires IsPod(doc) && HasContainers(doc)
    ensures var items := seq(|Items(doc)|, i requires 0 <= i < |Items(doc)| =>
                               WithLimits(Items(doc)[i], WantedLimits(Containers(doc))[i]));
            Patched(doc) == WithItems(doc, items)
  {
    var extra := WantedLimits(Containers(doc));
    assert seq(|Items(doc)|, i requires 0 <= i < |Items(doc)| => WithLimits(Items(doc)[i], extra[i]))
        == seq(|extra|, i requires 0 <= i < |extra| => WithLimits(Items(doc)[i], extra[i]));
  }

  lemma ItemPath(path: seq<string>, i: nat, k: string)
    requires |path| >= 3 && path[0] == "spec" && path[1] == "containers" && Index(path[2]) == Some(i)
    ensures path[3..] == ["resources", "limits", k]
       <==> path == ["spec", "containers", Decimal(i), "resources", "limits", k]
  {
    assert path[2] == Decimal(i);
    assert path == ["spec", "containers", Decimal(i)] + path[3..];
    assert ["spec", "containers", Decimal(i)] + ["resources", "limits", k]
        == ["spec", "containers", Decimal(i), "resources", "limits", k];
  }

  lemma AddedUnder(doc: Json, path: seq<string>, leaf: Json, i: nat)
    requires IsPod(doc) && i < |Items(doc)|
    requires |path| >= 3 && path[0] == "spec" && path[1] == "containers" && Index(path[2]) == Some(i)
    ensures AddedScalar(doc, path, leaf) <==>
            exists k :: path[3..] == ["resources", "limits", k] && k in WantedLimits(Containers(doc))[i]
                        && WantedLimits(Containers(doc))[i][k] == leaf
  {
    hide Get, Says, WantedLimits;
    if AddedScalar(doc, path, leaf) {
      var j: nat, k :|
        && path == ["spec", "containers", Decimal(j), "resources", "limits", k]
        && j < |Items(doc)| && Get(Items(doc)[j], ["resources", "limits", k]) == None
        && (exists amount ::
              Says(Get(Items(doc)[j], ["resources", "requests", k]), amount) && leaf == Quantity(amount));
      IndexDecimal(j);
      WantedLimit(doc, i, k, leaf);
      ItemPath(path, i, k);
    }
    if k :| path[3..] == ["resources", "limits", k] && k in WantedLimits(Containers(doc))[i]
            && WantedLimits(Containers(doc))[i][k] == leaf {
      WantedLimit(doc, i, k, leaf);
      ItemPath(path, i, k);
    }
  }

  /** The scalars of a patched pod, with their places, are those of the document and the missing limits. */
  lemma PatchedScalars(doc: Json, path: seq<string>, leaf: Json)
    requires IsPod(doc) && Patchable(doc) && Scalar(leaf)
    ensures Get(Patched(doc), path) == Some(leaf) <==> Get(doc, path) == Some(leaf) || AddedScalar(doc, path, leaf)
  {
    hide Get, AddedScalar, Says, WantedLimits, Patched, Patchable;
    if HasContainers(doc) {
      PatchedItems(doc);
      var items := seq(|Items(doc)|, i requires 0 <= i < |Items(doc)| =>
                         WithLimits(Items(doc)[i], WantedLimits(Containers(doc))[i]));
      ItemScalars(doc, items, path, leaf);
      ItemScalars(doc, Items(doc), path, leaf);
      OtherItems(doc, Items(doc), []);
      if |path| >= 3 && path[0] == "spec" && path[1] == "containers" && Index(path[2]).Some?
         && Index(path[2]).value < |Items(doc)| {
        PatchedItem(doc, Index(path[2]).value, path[3..], leaf);
        AddedUnder(doc, path, leaf, Index(path[2]).value);
      } else {
        NothingAdded(doc, path, leaf);
      }
    } else {
      NothingAdded(doc, path, leaf);
      NoContainers(doc);
    }
  }

  lemma NoContainers(doc: Json)
    requires IsPod(doc) && !HasContainers(doc)
    ensures Patched(doc) == doc
  {
  }

  lemma NothingAdded(doc: Json, path: seq<string>, leaf: Json)
    requires IsPod(doc)
    requires !(|path| >= 3 && path[0] == "spec" && path[1] == "containers" && Index(path[2]).Some?
               && Index(path[2]).value < |Items(doc)|)
    ensures !AddedScalar(doc, path, leaf)
  {
    forall i: nat, k | path == ["spec", "containers", Decimal(i), "resources", "limits", k] ensures i >= |Items(doc)| {
      IndexDecimal(i);
    }
  }

  /** A requested resource without a limit gets exactly its request as the limit, in whatever order the operations are
      applied. */
  lemma MissingLimitSet(doc: Json, ops: seq<Operation>, sites: seq<Site>, i: nat, k: string, amount: int)
    requires IsPod(doc) && Patchable(doc) && Emits(Containers(doc), ops, sites) && i < |Items(doc)|
    requires Get(Items(doc)[i], ["resources", "requests", k]) == Some(Quantity(amount))
    requires Get(Items(doc)[i], ["resources", "limits", k]) == None
    ensures ApplyAll(doc, ops).Some?
    ensures Get(ApplyAll(doc, ops).value, ["spec", "containers", Decimal(i), "resources", "limits", k])
         == Some(Quantity(amount))
  {
    hide Get, Patchable, Emits, ApplyAll;
    PatchWorksIff(doc, ops, sites);
    var path := ["spec", "containers", Decimal(i), "resources", "limits", k];
    assert Says(Get(Items(doc)[i], ["resources", "requests", k]), amount);
    assert AddedScalar(doc, path, Quantity(amount));
    PatchedScalars(doc, path, Quantity(amount));
  }

  /******* Namespaces *******/

  /** Among the scalars of a namespace the patch sets the project annotation and changes nothing else; an annotations
      member that is null is replaced. */
  lemma AnnotatedScalars(doc: Json, projectId: string, path: seq<string>, leaf: Json)
    requires IsNamespace(doc) && Field(doc, "metadata").Some? && Scalar(leaf)
    ensures Get(WithAnnotations(doc, Annotated(doc, projectId)), path) == Some(leaf) <==>
            if path == ["metadata", "annotations", "field.cattle.io/projectId"] then leaf == Text(projectId)
            else path != ["metadata", "annotations"] && Get(doc, path) == Some(leaf)
  {
    var metadata, annotations := doc.fields["metadata"].fields, Annotations(doc);
    var changed := Annotated(doc, projectId);
    if path != [] {
      GetSet(doc.fields, "metadata", Object(metadata["annotations" := Object(changed)]), path);
      if |path| > 1 {
        GetSet(metadata, "annotations", Object(changed), path[1..]);
        assert path[1..][1..] == path[2..];
        if |path| > 2 && path[0] == "metadata" && path[1] == "annotations" {
          GetSet(annotations, "field.cattle.io/projectId", Text(projectId), path[2..]);
          AnnotationEntry(doc, path, leaf);
        } else if path[0] == "metadata" && path[1] == "annotations" {
          assert path == ["metadata", "annotations"] && path[2..] == [];
        }
      }
    }
  }

  lemma AnnotationEntry(doc: Json, path: seq<string>, leaf: Json)
    requires IsNamespace(doc) && Field(doc, "metadata").Some? && Scalar(leaf)
    requires |path| > 2 && path[0] == "metadata" && path[1] == "annotations"
    ensures Get(doc, path) == Some(leaf)
       <==> |path| == 3 && path[2] in Annotations(doc) && Annotations(doc)[path[2]] == leaf
    ensures path == ["metadata", "annotations", path[2]] <==> |path| == 3
    ensures forall text :: Get(Text(text), path[3..]) == if |path| == 3 then Some(Text(text)) else None
    ensures path[2..][1..] == path[3..]
    ensures Get(Object(Annotations(doc)), path[2..]) == Some(leaf) <==> Get(doc, path) == Some(leaf)
  {
    assert path[1..][1..] == path[2..] && path[2..][1..] == path[3..];
    var metadata := doc.fields["metadata"];
    assert Get(doc, path) == Get(metadata, path[1..]);
    if "annotations" in metadata.fields {
      assert Get(metadata, path[1..]) == Get(metadata.fields["annotations"], path[2..]);
    }
    if path[2] in Annotations(doc) {
      ScalarGet(Annotations(doc)[path[2]], path[3..]);
      assert Get(Object(Annotations(doc)), path[2..]) == Get(Annotations(doc)[path[2]], path[3..]);
    }
  }

  /** A namespace is let in exactly if its name starts with the name of its creator's project, and then the project
      annotation is set and nothing else changes. */
  lemma NamespaceDecision(doc: Json, info: UserProjectInfo, path: seq<string>, leaf: Json)
    requires IsNamespace(doc) && !info.isOwner && info.projectName != "" && Scalar(leaf)
    ensures var answer := NamespaceAnswer(doc, [info]);
            && (answer.Allowed?
                <==> exists name :: Get(doc, ["metadata", "name"]) == Some(Text(name)) && info.projectName <= name)
            && (answer.Allowed? ==>
                  && ApplyAll(doc, answer.patch).Some?
                  && (Get(ApplyAll(doc, answer.patch).value, path) == Some(leaf) <==>
                        if path == ["metadata", "annotations", "field.cattle.io/projectId"]
                        then leaf == Text(info.projectId)
                        else path != ["metadata", "annotations"] && Get(doc, path) == Some(leaf)))
  {
    hide Get, WithAnnotations, ApplyAll;
    NamespacePatched(doc, info);
    NameRead(doc);
    if NamespaceAnswer(doc, [info]).Allowed? {
      AnnotatedScalars(doc, info.projectId, path, leaf);
    }
  }

  lemma NameRead(doc: Json)
    requires IsNamespace(doc)
    ensures forall name | name != "" ::
              Get(doc, ["metadata", "name"]) == Some(Text(name)) <==> NamespaceName(doc) == name
  {
    GetField(doc, "metadata");
    GetConcat(doc, ["metadata"], ["name"]);
    assert ["metadata"] + ["name"] == ["metadata", "name"];
    if Get(doc, ["metadata"]).Some? {
      GetField(Get(doc, ["metadata"]).value, "name");
    }
  }
}
