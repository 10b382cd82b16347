/** What applying the webhook's patches does to the objects under review. */
module PatchProperties {
  import opened Wrappers
  import opened Decimals
  import opened JsonPatch
  import opened ProjectResolver
  import opened Admission

  /******* Where an operation points *******/

  function LimitPath(i: nat): seq<string> {
    ["spec", "containers", Decimal(i), "resources", "limits"]
  }

  /** The tokens that a resource name turns into when it is put into a path as it is. */
  function KeyTokens(k: string): Option<seq<string>> {
    UnescapeAll(Split(k))
  }

  lemma SplitPart(a: string, parts: seq<string>, b: string)
    requires Split(a) == parts && '/' !in b
    ensures Split(a + "/" + b) == parts + [b]
  {
    SplitConcat(a, b);
    SplitOne(b);
  }

  lemma PrefixSplits(i: nat, k: string)
    ensures Split(LimitPointer(i, k)[1..]) == LimitPath(i) + Split(k)
  {
    hide Split;
    var d := Decimal(i);
    SplitOne("spec");
    SplitPart("spec", ["spec"], "containers");
    SplitPart("spec" + "/" + "containers", ["spec", "containers"], d);
    SplitPart("spec" + "/" + "containers" + "/" + d, ["spec", "containers", d], "resources");
    SplitPart("spec" + "/" + "containers" + "/" + d + "/" + "resources", ["spec", "containers", d, "resources"],
              "limits");
    SplitConcat("spec" + "/" + "containers" + "/" + d + "/" + "resources" + "/" + "limits", k);
    assert LimitPointer(i, k)[1..]
        == "spec" + "/" + "containers" + "/" + d + "/" + "resources" + "/" + "limits" + "/" + k;
  }

  lemma PlainTokens(tokens: seq<string>)
    requires forall t | t in tokens :: '~' !in t
    ensures UnescapeAll(tokens) == Some(tokens)
  {
    if tokens != [] {
      UnescapePlain(tokens[0]);
      PlainTokens(tokens[1..]);
      assert tokens == [tokens[0]] + tokens[1..];
    }
  }

  lemma PathPlain(i: nat)
    ensures forall t | t in LimitPath(i) :: '~' !in t
  {
    assert '~' !in Decimal(i);
  }

  lemma LimitTokens(i: nat, k: string, amount: int)
    ensures Tokens(AddLimit(i, k, amount).path)
         == match KeyTokens(k) case Some(t) => Some(LimitPath(i) + t) case None => None
  {
    hide Split, LimitPath;
    PrefixSplits(i, k);
    PathPlain(i);
    PlainTokens(LimitPath(i));
    UnescapeConcat(LimitPath(i), Split(k));
  }

  /** The member of the limits that an operation for `k` would set, if it could. */
  function Target(k: string): Option<string> {
    if '/' in k then None else Unescape(k)
  }

  lemma TargetTokens(k: string)
    ensures KeyTokens(k).Some? ==> |KeyTokens(k).value| > 0
    ensures Target(k).Some? <==> KeyTokens(k).Some? && |KeyTokens(k).value| == 1
    ensures Target(k).Some? ==> KeyTokens(k) == Some([Target(k).value])
    ensures Target(k) == Some(k) <==> Plain(k)
  {
    SplitOne(k);
    UnescapeLength(Split(k));
    UnescapePlain(k);
    if '/' !in k {
      UnescapeOne(k);
    }
  }

  /******* One operation *******/

  function LimitFields(container: Json): Option<map<string, Json>> {
    if container.Object? && "resources" in container.fields && container.fields["resources"].Object?
       && "limits" in container.fields["resources"].fields && container.fields["resources"].fields["limits"].Object?
    then Some(container.fields["resources"].fields["limits"].fields)
    else None
  }

  /** The container with these members added to its limits. */
  function WithLimits(container: Json, extra: map<string, Json>): Json {
    if LimitFields(container).None? then container
    else
      var resources := container.fields["resources"].fields;
      Object(container.fields["resources" := Object(resources["limits" := Object(resources["limits"].fields + extra)])])
  }

  /** The document with other containers. */
  function WithItems(doc: Json, items: seq<Json>): Json
    requires IsPod(doc) && HasContainers(doc)
  {
    Object(doc.fields["spec" := Object(doc.fields["spec"].fields["containers" := Array(items)])])
  }

  lemma AddBelow(fields: map<string, Json>, key: string, path: seq<string>, value: Json)
    requires path != [] && key in fields
    ensures AddAt(Object(fields), [key] + path, value)
         == match AddAt(fields[key], path, value) case Some(f) => Some(Object(fields[key := f])) case None => None
  {
    assert ([key] + path)[1..] == path;
  }

  lemma AddToItem(items: seq<Json>, i: nat, path: seq<string>, value: Json)
    requires path != [] && i < |items|
    ensures AddAt(Array(items), [Decimal(i)] + path, value)
         == match AddAt(items[i], path, value) case Some(item) => Some(Array(items[i := item])) case None => None
  {
    assert ([Decimal(i)] + path)[1..] == path;
    ParsePrinted(i);
  }

  lemma AddInContainer(doc: Json, i: nat, path: seq<string>, value: Json)
    requires IsPod(doc) && i < |Items(doc)| && path != []
    ensures AddAt(doc, ["spec", "containers", Decimal(i)] + path, value)
         == match AddAt(Items(doc)[i], path, value)
            case Some(item) => Some(WithItems(doc, Items(doc)[i := item]))
            case None => None
  {
    var spec := doc.fields["spec"];
    var inArray, inSpec := [Decimal(i)] + path, ["containers"] + ([Decimal(i)] + path);
    AddToItem(Items(doc), i, path, value);
    AddBelow(spec.fields, "containers", inArray, value);
    AddBelow(doc.fields, "spec", inSpec, value);
    assert ["spec", "containers", Decimal(i)] + path == ["spec"] + inSpec;
  }

  lemma AddToLimits(container: Json, tokens: seq<string>, value: Json)
    requires IsContainer(container) && tokens != []
    ensures AddAt(container, ["resources", "limits"] + tokens, value)
         == if LimitFields(container).Some? && |tokens| == 1
            then Some(WithLimits(container, map[tokens[0] := value]))
            else None
  {
    if "resources" in container.fields {
      AddBelow(container.fields, "resources", ["limits"] + tokens, value);
      assert ["resources"] + (["limits"] + tokens) == ["resources", "limits"] + tokens;
      var resources := container.fields["resources"];
      if resources.Object? && "limits" in resources.fields {
        AddBelow(resources.fields, "limits", tokens, value);
        AddToLeaves(resources.fields["limits"], tokens, value);
      }
    }
  }

  lemma AddToLeaves(limits: Json, tokens: seq<string>, value: Json)
    requires tokens != []
    requires limits.Null? || (limits.Object? && forall k | k in limits.fields :: Leaf(limits.fields[k]))
    ensures AddAt(limits, tokens, value)
         == if limits.Object? && |tokens| == 1 then Some(Object(limits.fields + map[tokens[0] := value])) else None
  {
    if limits.Object? {
      assert limits.fields[tokens[0] := value] == limits.fields + map[tokens[0] := value];
    }
  }

  /** An operation either fails or adds one member to the limits of one container. */
  lemma OneOperation(doc: Json, i: nat, k: string, amount: int)
    requires IsPod(doc) && i < |Items(doc)|
    ensures Apply(doc, AddLimit(i, k, amount))
         == if LimitFields(Items(doc)[i]).Some? && Target(k).Some?
            then Some(WithItems(doc,
                                Items(doc)[i := WithLimits(Items(doc)[i], map[Target(k).value := Quantity(amount)])]))
            else None
  {
    LimitTokens(i, k, amount);
    TargetTokens(k);
    if KeyTokens(k).Some? {
      var t := KeyTokens(k).value;
      AddToLimits(Items(doc)[i], t, Quantity(amount));
      AddInContainer(doc, i, ["resources", "limits"] + t, Quantity(amount));
      assert LimitPath(i) + t == ["spec", "containers", Decimal(i)] + (["resources", "limits"] + t);
    }
  }

  /******* The whole patch *******/

  type Extras = seq<map<string, Json>>

  /** The document with `extra[i]` added to the limits of container `i`. */
  function WithExtras(doc: Json, extra: Extras): Json
    requires IsPod(doc) && |extra| == |Items(doc)|
  {
    if HasContainers(doc)
    then WithItems(doc, seq(|extra|, i requires 0 <= i < |extra| => WithLimits(Items(doc)[i], extra[i])))
    else doc
  }

  predicate AllLeaves(extra: Extras) {
    forall i, k | 0 <= i < |extra| && k in extra[i] :: Leaf(extra[i][k])
  }

  lemma MoreLimits(c: Json, x: map<string, Json>, y: map<string, Json>)
    requires IsContainer(c)
    ensures WithLimits(WithLimits(c, x), y) == WithLimits(c, x + y)
    ensures WithLimits(c, map[]) == c
    ensures LimitFields(WithLimits(c, x))
         == if LimitFields(c).Some? then Some(LimitFields(c).value + x) else None
  {
    if LimitFields(c).Some? {
      var resources := c.fields["resources"].fields;
      var limits := resources["limits"].fields;
      assert limits + map[] == limits && limits + x + y == limits + (x + y);
      assert resources["limits" := Object(limits)] == resources;
      assert c.fields["resources" := Object(resources)] == c.fields;
      assert resources["limits" := Object(limits + x)]["limits" := Object(limits + x + y)]
          == resources["limits" := Object(limits + x + y)];
      var some, all := resources["limits" := Object(limits + x)], resources["limits" := Object(limits + x + y)];
      assert c.fields["resources" := Object(some)]["resources" := Object(all)] == c.fields["resources" := Object(all)];
    }
  }

  lemma StaysContainer(c: Json, x: map<string, Json>)
    requires IsContainer(c) && forall k | k in x :: Leaf(x[k])
    ensures IsContainer(WithLimits(c, x))
    ensures ResourceList(WithLimits(c, x), "requests") == ResourceList(c, "requests")
    ensures LimitFields(c).Some? ==>
              ResourceList(WithLimits(c, x), "limits") == Some(Object(LimitFields(c).value + x))
  {
  }

  lemma OtherItems(doc: Json, items: seq<Json>, others: seq<Json>)
    requires IsPod(doc) && HasContainers(doc) && forall c | c in items :: IsContainer(c)
    ensures var doc' := WithItems(doc, items);
            && IsPod(doc') && HasContainers(doc') && Items(doc') == items
            && WithItems(doc', others) == WithItems(doc, others)
    ensures WithItems(doc, Items(doc)) == doc
  {
    var spec := doc.fields["spec"].fields;
    assert spec["containers" := Array(items)]["containers" := Array(others)] == spec["containers" := Array(others)];
    assert spec["containers" := Array(Items(doc))] == spec;
    var some, all := Object(spec["containers" := Array(items)]), Object(spec["containers" := Array(others)]);
    assert doc.fields["spec" := some]["spec" := all] == doc.fields["spec" := all];
    assert doc.fields["spec" := Object(spec)] == doc.fields;
  }

  lemma ExtrasItems(doc: Json, extra: Extras)
    requires IsPod(doc) && |extra| == |Items(doc)| && AllLeaves(extra)
    ensures var doc' := WithExtras(doc, extra);
            && IsPod(doc') && (HasContainers(doc') <==> HasContainers(doc)) && |Items(doc')| == |Items(doc)|
            && forall i | 0 <= i < |Items(doc)| :: Items(doc')[i] == WithLimits(Items(doc)[i], extra[i])
  {
    if HasContainers(doc) {
      var items := seq(|extra|, i requires 0 <= i < |extra| => WithLimits(Items(doc)[i], extra[i]));
      forall c | c in items ensures IsContainer(c) {
        var i :| 0 <= i < |items| && items[i] == c;
        assert Items(doc)[i] in Items(doc);
        StaysContainer(Items(doc)[i], extra[i]);
      }
      OtherItems(doc, items, items);
    }
  }

  lemma NoExtras(doc: Json, extra: Extras)
    requires IsPod(doc) && |extra| == |Items(doc)| && forall i | 0 <= i < |extra| :: extra[i] == map[]
    ensures WithExtras(doc, extra) == doc
  {
    if HasContainers(doc) {
      var items := seq(|extra|, i requires 0 <= i < |extra| => WithLimits(Items(doc)[i], extra[i]));
      forall i | 0 <= i < |extra| ensures items[i] == Items(doc)[i] {
        assert Items(doc)[i] in Items(doc);
        MoreLimits(Items(doc)[i], map[], map[]);
      }
      assert items == Items(doc);
      OtherItems(doc, Items(doc), items);
    }
  }

  /** One more operation adds one more limit, wherever the patch has got to. */
  lemma NextOperation(doc: Json, extra: Extras, i: nat, k: string, amount: int)
    requires IsPod(doc) && |extra| == |Items(doc)| && AllLeaves(extra) && i < |Items(doc)|
    ensures Apply(WithExtras(doc, extra), AddLimit(i, k, amount))
         == if LimitFields(Items(doc)[i]).Some? && Target(k).Some?
            then Some(WithExtras(doc, extra[i := extra[i] + map[Target(k).value := Quantity(amount)]]))
            else None
  {
    var doc', item := WithExtras(doc, extra), Items(doc)[i];
    assert item in Items(doc);
    ExtrasItems(doc, extra);
    OneOperation(doc', i, k, amount);
    MoreLimits(item, extra[i], map[]);
    if LimitFields(item).Some? && Target(k).Some? {
      var one := map[Target(k).value := Quantity(amount)];
      MoreLimits(item, extra[i], one);
      var extra' := extra[i := extra[i] + one];
      var items' := seq(|extra'|, j requires 0 <= j < |extra'| => WithLimits(Items(doc)[j], extra'[j]));
      assert Items(doc')[i := WithLimits(Items(doc')[i], one)] == items';
      ExtrasStep(doc, Items(doc'), items');
    }
  }

  lemma ExtrasStep(doc: Json, items: seq<Json>, others: seq<Json>)
    requires IsPod(doc) && HasContainers(doc) && forall c | c in items :: IsContainer(c)
    ensures WithItems(doc, items).fields["spec"].fields["containers"] == Array(items)
    ensures IsPod(WithItems(doc, items)) && HasContainers(WithItems(doc, items))
            && WithItems(WithItems(doc, items), others) == WithItems(doc, others)
  {
    OtherItems(doc, items, others);
  }

  predicate AllSites(cs: seq<Container>, sites: seq<Site>) {
    forall j | 0 <= j < |sites| :: IsSite(cs, sites[j])
  }

  function Requested(cs: seq<Container>, s: Site): Json
    requires IsSite(cs, s)
  {
    Quantity(cs[s.0].requests.value[s.1])
  }

  /** What operations for these sites add, as far as they can be carried out. */
  function Contributions(cs: seq<Container>, sites: seq<Site>): (extra: Extras)
    requires AllSites(cs, sites)
    ensures |extra| == |cs| && AllLeaves(extra)
  {
    if sites == [] then seq(|cs|, _ => map[])
    else
      var last := sites[|sites| - 1];
      var extra := Contributions(cs, sites[..|sites| - 1]);
      if Target(last.1).Some? then extra[last.0 := extra[last.0] + map[Target(last.1).value := Requested(cs, last)]]
      else extra
  }

  /** The container has a limits object, and the path that is made from the resource's name leads to a member of it. */
  predicate CanBeSet(doc: Json, s: Site) {
    s.0 < |Items(doc)| && LimitFields(Items(doc)[s.0]).Some? && Target(s.1).Some?
  }

  predicate AllCanBeSet(doc: Json, sites: seq<Site>) {
    forall j | 0 <= j < |sites| :: CanBeSet(doc, sites[j])
  }

  /** A patch as a whole succeeds exactly if each of its operations could be carried out alone. */
  lemma {:induction false} PatchApplied(doc: Json, ops: seq<Operation>, sites: seq<Site>)
    requires IsPod(doc) && |ops| == |sites| && AllSites(Containers(doc), sites)
    requires forall j | 0 <= j < |ops| :: ops[j] == OperationAt(Containers(doc), sites[j])
    ensures ApplyAll(doc, ops)
         == if AllCanBeSet(doc, sites) then Some(WithExtras(doc, Contributions(Containers(doc), sites))) else None
  {
    hide WithExtras, CanBeSet, Apply, IsPod;
    var cs, n := Containers(doc), |sites| - 1;
    if sites == [] {
      NoExtras(doc, Contributions(cs, sites));
    } else {
      var earlier, last := sites[..n], sites[n];
      PatchApplied(doc, ops[..n], earlier);
      AllCanBeSetStep(doc, sites);
      NextOperation(doc, Contributions(cs, earlier), last.0, last.1, cs[last.0].requests.value[last.1]);
      CanBeSetMeans(doc, last);
    }
  }

  lemma CanBeSetMeans(doc: Json, s: Site)
    requires s.0 < |Items(doc)|
    ensures CanBeSet(doc, s) <==> LimitFields(Items(doc)[s.0]).Some? && Target(s.1).Some?
  {
  }

  lemma AllCanBeSetStep(doc: Json, sites: seq<Site>)
    requires sites != []
    ensures AllCanBeSet(doc, sites) <==> AllCanBeSet(doc, sites[..|sites| - 1]) && CanBeSet(doc, sites[|sites| - 1])
  {
  }

  /******* When the patch does what it is for *******/

  /** The limits that are missing, equal to the requests. */
  function WantedLimits(cs: seq<Container>): (extra: Extras)
    ensures |extra| == |cs| && AllLeaves(extra)
    ensures forall i | 0 <= i < |cs| :: extra[i].Keys == Missing(cs[i])
  {
    seq(|cs|, i requires 0 <= i < |cs| => map k | k in Missing(cs[i]) :: Quantity(cs[i].requests.value[k]))
  }

  /** The pod with every missing limit set to the request, and nothing else changed. */
  function Patched(doc: Json): Json
    requires IsPod(doc)
  {
    WithExtras(doc, WantedLimits(Containers(doc)))
  }

  lemma {:induction false} ContributionKeys(cs: seq<Container>, sites: seq<Site>, i: nat, t: string)
    requires AllSites(cs, sites) && i < |cs|
    ensures t in Contributions(cs, sites)[i] <==> exists s | s in sites :: s.0 == i && Target(s.1) == Some(t)
  {
    if sites != [] {
      var last, earlier := sites[|sites| - 1], sites[..|sites| - 1];
      ContributionKeys(cs, earlier, i, t);
      assert forall s :: s in sites <==> s in earlier || s == last;
    }
  }

  lemma {:induction false} PlainContribution(cs: seq<Container>, sites: seq<Site>, s: Site)
    requires AllSites(cs, sites) && s in sites && forall r | r in sites :: Plain(r.1)
    ensures IsSite(cs, s) && s.1 in Contributions(cs, sites)[s.0]
    ensures Contributions(cs, sites)[s.0][s.1] == Requested(cs, s)
  {
    var last, earlier := sites[|sites| - 1], sites[..|sites| - 1];
    assert forall r :: r in sites <==> r in earlier || r == last;
    TargetTokens(last.1);
    if s != last {
      PlainContribution(cs, earlier, s);
    }
  }

  lemma PlainPatch(cs: seq<Container>, ops: seq<Operation>, sites: seq<Site>)
    requires Emits(cs, ops, sites) && forall r | r in sites :: Plain(r.1)
    ensures Contributions(cs, sites) == WantedLimits(cs)
  {
    var extra, wanted := Contributions(cs, sites), WantedLimits(cs);
    forall i | 0 <= i < |cs| ensures extra[i] == wanted[i] {
      forall t ensures t in extra[i] <==> t in wanted[i] {
        ContributionKeys(cs, sites, i, t);
        if s :| s in sites && s.0 == i && Target(s.1) == Some(t) {
          TargetTokens(s.1);
        }
        if t in wanted[i] {
          assert IsSite(cs, (i, t));
          TargetTokens(t);
        }
      }
      forall t | t in wanted[i] ensures extra[i][t] == wanted[i][t] {
        assert IsSite(cs, (i, t));
        PlainContribution(cs, sites, (i, t));
      }
    }
  }

  lemma {:induction false} LongestEscaped(sites: seq<Site>, i: nat, some: Site) returns (longest: Site)
    requires some in sites && some.0 == i && !Plain(some.1)
    ensures longest in sites && longest.0 == i && !Plain(longest.1)
    ensures forall s | s in sites && s.0 == i && !Plain(s.1) :: |s.1| <= |longest.1|
  {
    var first, rest := sites[0], sites[1..];
    assert forall s :: s in sites <==> s == first || s in rest;
    if r :| r in rest && r.0 == i && !Plain(r.1) {
      longest := LongestEscaped(rest, i, r);
      if first.0 == i && !Plain(first.1) && |first.1| > |longest.1| {
        longest := first;
      }
    } else {
      longest := some;
    }
  }

  /** A name with a tilde is never set by any operation: those for other such names set shorter ones. */
  lemma EscapedLost(cs: seq<Container>, ops: seq<Operation>, sites: seq<Site>, some: Site)
    requires Emits(cs, ops, sites) && some in sites && !Plain(some.1)
    ensures some.0 < |cs| && !(Missing(cs[some.0]) <= Contributions(cs, sites)[some.0].Keys)
  {
    var i := some.0;
    var longest := LongestEscaped(sites, i, some);
    ContributionKeys(cs, sites, i, longest.1);
    if s :| s in sites && s.0 == i && Target(s.1) == Some(longest.1) {
      TargetTokens(s.1);
      UnescapePlain(s.1);
    }
  }

  /** Every container that lacks a limit has a limits object, and no such resource's name has a slash or a tilde. */
  ghost predicate Patchable(doc: Json)
    requires IsPod(doc)
  {
    forall s: Site | IsSite(Containers(doc), s) :: LimitFields(Items(doc)[s.0]).Some? && Plain(s.1)
  }

  lemma DifferentExtras(doc: Json, x: Extras, y: Extras, i: nat, k: string)
    requires IsPod(doc) && i < |x| == |y| == |Items(doc)| && AllLeaves(x) && AllLeaves(y)
    requires LimitFields(Items(doc)[i]).Some? && k !in LimitFields(Items(doc)[i]).value && k !in x[i] && k in y[i]
    ensures WithExtras(doc, x) != WithExtras(doc, y)
  {
    assert Items(doc)[i] in Items(doc);
    ExtrasItems(doc, x);
    ExtrasItems(doc, y);
    MoreLimits(Items(doc)[i], x[i], map[]);
    MoreLimits(Items(doc)[i], y[i], map[]);
    assert k !in LimitFields(Items(doc)[i]).value + x[i] && k in LimitFields(Items(doc)[i]).value + y[i];
  }

  /** Limits that the document has are not missing. */
  lemma MissingAbsent(doc: Json, i: nat, k: string)
    requires IsPod(doc) && i < |Items(doc)| && k in Missing(Containers(doc)[i]) && LimitFields(Items(doc)[i]).Some?
    ensures k !in LimitFields(Items(doc)[i]).value
  {
    assert Items(doc)[i] in Items(doc);
  }

  /** In whatever order the operations were emitted, the patch turns the document into the patched pod exactly if the
      pod is patchable. */
  lemma PatchWorksIff(doc: Json, ops: seq<Operation>, sites: seq<Site>)
    requires IsPod(doc) && Emits(Containers(doc), ops, sites)
    ensures ApplyAll(doc, ops) == Some(Patched(doc)) <==> Patchable(doc)
  {
    var cs := Containers(doc);
    PatchApplied(doc, ops, sites);
    if Patchable(doc) {
      forall j | 0 <= j < |sites| ensures CanBeSet(doc, sites[j]) && Plain(sites[j].1) {
        TargetTokens(sites[j].1);
      }
      PlainPatch(cs, ops, sites);
    } else {
      Unpatchable(doc, ops, sites);
    }
  }

  lemma Unpatchable(doc: Json, ops: seq<Operation>, sites: seq<Site>)
    requires IsPod(doc) && Emits(Containers(doc), ops, sites) && !Patchable(doc)
    ensures AllCanBeSet(doc, sites) ==> WithExtras(doc, Contributions(Containers(doc), sites)) != Patched(doc)
  {
    var cs := Containers(doc);
    var s: Site :| IsSite(cs, s) && !(LimitFields(Items(doc)[s.0]).Some? && Plain(s.1));
    assert s in sites;
    if AllCanBeSet(doc, sites) {
      var j :| 0 <= j < |sites| && sites[j] == s;
      assert CanBeSet(doc, sites[j]);
      EscapedLost(cs, ops, sites, s);
      var extra, wanted := Contributions(cs, sites), WantedLimits(cs);
      var k :| k in Missing(cs[s.0]) && k !in extra[s.0];
      MissingAbsent(doc, s.0, k);
      DifferentExtras(doc, extra, wanted, s.0, k);
    }
  }

  /** If a container without a limits object lacks a limit, or a resource that lacks one has a slash in its name, as
      vendors' resources do, the whole patch fails. */
  lemma PatchFails(doc: Json, ops: seq<Operation>, sites: seq<Site>, s: Site)
    requires IsPod(doc) && Emits(Containers(doc), ops, sites) && IsSite(Containers(doc), s)
    requires LimitFields(Items(doc)[s.0]).None? || '/' in s.1
    ensures ApplyAll(doc, ops) == None
  {
    PatchApplied(doc, ops, sites);
    assert s in sites && !CanBeSet(doc, s);
  }

  /** A pod whose one container requests CPU and has no limits object is let in, and its patch fails. */
  lemma NoLimitsExample() returns (doc: Json, ops: seq<Operation>, sites: seq<Site>)
    ensures IsPod(doc) && (forall c | c in Containers(doc) :: Acceptable(c)) && Emits(Containers(doc), ops, sites)
    ensures ApplyAll(doc, ops) == None
  {
    var requests := map["cpu" := Quantity(1)];
    var c := Object(map["resources" := Object(map["requests" := Object(requests)])]);
    doc := Object(map["spec" := Object(map["containers" := Array([c])])]);
    assert Items(doc) == [c];
    assert ResourceList(c, "requests") == Some(Object(requests)) && ResourceList(c, "limits") == None;
    var cs := Containers(doc);
    assert cs[0].requests.value == map["cpu" := 1] && cs[0].limits == None;
    ops, sites := [AddLimit(0, "cpu", 1)], [(0, "cpu")];
    assert IsSite(cs, sites[0]);
    PatchFails(doc, ops, sites, sites[0]);
  }

  /******* The patched pod *******/

  lemma PatchedContainer(doc: Json, i: nat)
    requires IsPod(doc) && Patchable(doc) && i < |Items(doc)|
    ensures IsPod(Patched(doc)) && |Items(Patched(doc))| == |Items(doc)|
    ensures var c, c' := Containers(doc)[i], Containers(Patched(doc))[i];
            && c'.requests == c.requests
            && (Missing(c) == {} ==> c' == c)
            && (Missing(c) != {} ==>
                  c.limits.Some? && c'.limits == Some(c.limits.value + map k | k in Missing(c) :: c.requests.value[k]))
  {
    var item, wanted := Items(doc)[i], WantedLimits(Containers(doc));
    assert item in Items(doc);
    ExtrasItems(doc, wanted);
    StaysContainer(item, wanted[i]);
    MoreLimits(item, wanted[i], map[]);
    var c, c' := Containers(doc)[i], Containers(Patched(doc))[i];
    if Missing(c) == {} {
      assert wanted[i] == map[];
    } else {
      var k :| k in Missing(c);
      assert IsSite(Containers(doc), (i, k));
      var limits := LimitFields(item).value;
      assert ResourceList(item, "limits") == Some(Object(limits));
      AmountsOfUnion(limits, wanted[i], map k | k in Missing(c) :: c.requests.value[k]);
    }
  }

  lemma AmountsOfUnion(limits: map<string, Json>, extra: map<string, Json>, amounts: Amounts)
    requires extra.Keys == amounts.Keys && forall k | k in extra :: AmountOf(extra[k]) == amounts[k]
    ensures (map k | k in limits + extra :: AmountOf((limits + extra)[k]))
        == (map k | k in limits :: AmountOf(limits[k])) + amounts
  {
  }

  /** Every requested resource of a pod that was let in has a limit no higher than its request, limits that were
      there are kept, and the patched pod is let in again as it is. */
  lemma PatchedPod(doc: Json, i: nat)
    requires IsPod(doc) && Patchable(doc) && (forall c | c in Containers(doc) :: Acceptable(c)) && i < |Items(doc)|
    ensures IsPod(Patched(doc)) && |Items(Patched(doc))| == |Items(doc)|
    ensures var c, c' := Containers(doc)[i], Containers(Patched(doc))[i];
            && c'.requests == c.requests && Acceptable(c') && Missing(c') == {}
            && (forall k | k in c.requests.value :: c'.limits.Some? && k in c'.limits.value
                                                     && c'.limits.value[k] <= c.requests.value[k])
            && (forall k | c.limits.Some? && k in c.limits.value ::
                  c'.limits.Some? && k in c'.limits.value && c'.limits.value[k] == c.limits.value[k])
  {
    PatchedContainer(doc, i);
    var c, c' := Containers(doc)[i], Containers(Patched(doc))[i];
    assert c in Containers(doc);
    forall k | k in c.requests.value
      ensures c'.limits.Some? && k in c'.limits.value && c'.limits.value[k] <= c.requests.value[k]
    {
      assert !Excess(c, k);
      if k !in Missing(c) {
        assert k in c.limits.value;
      }
    }
  }

  /** Reviewing the patched pod again allows it with no operations. */
  lemma {:induction false} Readmitted(doc: Json, answer: Response)
    requires IsPod(doc) && Patchable(doc) && (forall c | c in Containers(doc) :: Acceptable(c))
    requires IsPod(Patched(doc)) && PodAnswer(Patched(doc), answer)
    ensures answer == Allowed([])
  {
    var cs := Containers(Patched(doc));
    forall i | 0 <= i < |Items(Patched(doc))| ensures Acceptable(cs[i]) && Missing(cs[i]) == {} {
      ExtrasItems(doc, WantedLimits(Containers(doc)));
      PatchedPod(doc, i);
    }
    if answer.Allowed? {
      var sites :| Emits(cs, answer.patch, sites);
      assert sites != [] ==> IsSite(cs, sites[0]);
    }
  }

  /******* Namespaces *******/

  /** The namespace with other annotations. */
  function WithAnnotations(doc: Json, annotations: map<string, Json>): Json
    requires IsNamespace(doc) && Field(doc, "metadata").Some?
  {
    Object(doc.fields["metadata" := Object(doc.fields["metadata"].fields["annotations" := Object(annotations)])])
  }

  lemma AnnotationTokens()
    ensures Tokens(ANNOTATIONS_PATH) == Some(["metadata", "annotations"])
  {
    hide Split, UnescapeAll;
    assert ANNOTATIONS_PATH[1..] == "metadata" + "/" + "annotations";
    SplitOne("metadata");
    SplitPart("metadata", ["metadata"], "annotations");
    assert ["metadata"] + ["annotations"] == ["metadata", "annotations"];
    PlainTokens(["metadata", "annotations"]);
    assert ANNOTATIONS_PATH[0] == '/';
  }

  /** A namespace is let in exactly if its name starts with the project's, and the patch always applies: it ends up in
      its creator's project whatever project its annotations named, keeps every other annotation, and is left as it
      is when reviewed again. */
  lemma NamespacePatched(doc: Json, info: UserProjectInfo)
    requires IsNamespace(doc) && !info.isOwner && info.projectName != ""
    ensures NamespaceAnswer(doc, [info]).Allowed? <==> info.projectName <= NamespaceName(doc)
    ensures NamespaceAnswer(doc, [info]).Allowed? ==>
              && Field(doc, "metadata").Some?
              && var doc' := WithAnnotations(doc, Annotated(doc, info.projectId));
              && ApplyAll(doc, NamespaceAnswer(doc, [info]).patch) == Some(doc')
              && IsNamespace(doc') && NamespaceName(doc') == NamespaceName(doc)
              && Annotations(doc') == Annotations(doc)[PROJECT_ANNOTATION := Text(info.projectId)]
              && NamespaceAnswer(doc', [info]) == NamespaceAnswer(doc, [info])
              && ApplyAll(doc', NamespaceAnswer(doc', [info]).patch) == Some(doc')
  {
    if info.projectName <= NamespaceName(doc) {
      var value := Annotated(doc, info.projectId);
      var doc' := WithAnnotations(doc, value);
      AnnotationApplied(doc, value);
      AnnotationsSet(doc, value);
      AnnotationApplied(doc', value);
      assert Annotated(doc', info.projectId) == value;
    }
  }

  lemma AnnotationsSet(doc: Json, annotations: map<string, Json>)
    requires IsNamespace(doc) && Field(doc, "metadata").Some? && forall k | k in annotations :: annotations[k].Text?
    ensures var doc' := WithAnnotations(doc, annotations);
            && IsNamespace(doc') && Field(doc', "metadata").Some? && NamespaceName(doc') == NamespaceName(doc)
            && Annotations(doc') == annotations && WithAnnotations(doc', annotations) == doc'
  {
    var doc', metadata := WithAnnotations(doc, annotations), doc.fields["metadata"].fields;
    var metadata' := metadata["annotations" := Object(annotations)];
    assert metadata'["annotations" := Object(annotations)] == metadata';
    assert doc'.fields["metadata" := Object(metadata')] == doc'.fields;
  }

  lemma AnnotationApplied(doc: Json, annotations: map<string, Json>)
    requires IsNamespace(doc) && Field(doc, "metadata").Some?
    ensures ApplyAll(doc, [Add(ANNOTATIONS_PATH, Object(annotations))]) == Some(WithAnnotations(doc, annotations))
  {
    var op := Add(ANNOTATIONS_PATH, Object(annotations));
    AnnotationTokens();
    AddBelow(doc.fields, "metadata", ["annotations"], Object(annotations));
    assert ["metadata", "annotations"] == ["metadata"] + ["annotations"];
    assert [op][..0] == [];
  }
}
