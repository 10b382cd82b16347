/** The admission rule that keeps ingress hosts unique, checked against a cached inventory of the cluster. */
module IngressHosts {
  import opened Wrappers

  /******* The rule *******/

  /** Rules without a host have none to match. */
  datatype Ingress = Ingress(namespace: string, name: string, rules: seq<Option<string>>)

  datatype Review = Review(kind: string, group: string, ingress: Ingress)

  /** Where an object is found in the inventory. */
  datatype Key = Key(namespace: string, apiVersion: string, kind: string, name: string)

  type Inventory = map<Key, Ingress>

  function Hosts(i: Ingress): set<string> {
    set r | r in i.rules && r.Some? :: r.value
  }

  /** What `.` matches in a regular expression. */
  predicate AnyChar(c: char) {
    c != '\n'
  }

  /** ^(extensions|networking.k8s.io)$, whose dots match any character. */
  predicate GroupMatches(group: string) {
    || group == "extensions"
    || (&& |group| == 17 && group[..10] == "networking" && AnyChar(group[10])
        && group[11..14] == "k8s" && AnyChar(group[14]) && group[15..] == "io")
  }

  /** ^(extensions|networking.k8s.io)/.+$ */
  predicate VersionMatches(version: string) {
    exists n | 0 <= n < |version| - 1 ::
      version[n] == '/' && GroupMatches(version[..n]) && forall i | n < i < |version| :: AnyChar(version[i])
  }

  predicate Identical(other: Ingress, review: Review) {
    other.namespace == review.ingress.namespace && other.name == review.ingress.name
  }

  predicate Conflicts(review: Review, key: Key, other: Ingress, host: string) {
    && key.kind == "Ingress" && VersionMatches(key.apiVersion)
    && host in Hosts(other) && !Identical(other, review)
  }

  /** The hosts that the rule reports; the request is denied if there are any. */
  function Violation(review: Review, inventory: Inventory): set<string> {
    if review.kind == "Ingress" && GroupMatches(review.group)
    then set host | host in Hosts(review.ingress)
                    && exists key | key in inventory :: Conflicts(review, key, inventory[key], host)
    else {}
  }

  predicate Denied(review: Review, inventory: Inventory) {
    Violation(review, inventory) != {}
  }

  lemma UsualGroups()
    ensures GroupMatches("extensions") && GroupMatches("networking.k8s.io") && !GroupMatches("apps")
    ensures VersionMatches("extensions/v1beta1") && VersionMatches("networking.k8s.io/v1")
    ensures !VersionMatches("v1") && !VersionMatches("apps/v1")
  {
    var a, b := "extensions/v1beta1", "networking.k8s.io/v1";
    assert a[10] == '/' && a[..10] == "extensions";
    assert b[17] == '/' && b[..17] == "networking.k8s.io";
  }

  /** The groups that are accepted, and no others. */
  lemma GroupExactly(group: string)
    ensures GroupMatches(group) <==>
            || group == "extensions"
            || exists c, d :: c != '\n' && d != '\n' && group == "networking" + [c] + "k8s" + [d] + "io"
  {
    if GroupMatches(group) && group != "extensions" {
      var c, d := group[10], group[14];
      assert group == group[..10] + [c] + group[11..14] + [d] + group[15..];
    }
    forall c, d | c != '\n' && d != '\n' && group == "networking" + [c] + "k8s" + [d] + "io"
      ensures GroupMatches(group)
    {
      assert group[..10] == "networking" && group[11..14] == "k8s" && group[15..] == "io";
      assert group[10] == c && group[14] == d;
    }
  }

  /** The versions that are accepted: such a group, a slash, and anything but a line break. */
  lemma VersionExactly(version: string)
    ensures VersionMatches(version) <==>
            exists group, rest ::
              GroupMatches(group) && rest != "" && '\n' !in rest && version == group + "/" + rest
  {
    hide GroupMatches;
    if VersionMatches(version) {
      var n :| 0 <= n < |version| - 1 && version[n] == '/' && GroupMatches(version[..n])
               && forall i | n < i < |version| :: AnyChar(version[i]);
      var group, rest := version[..n], version[n + 1..];
      assert version == group + "/" + rest && '\n' !in rest;
    }
    forall group, rest | GroupMatches(group) && rest != "" && '\n' !in rest && version == group + "/" + rest
      ensures VersionMatches(version)
    {
      SplitVersion(group, rest);
    }
  }

  lemma SplitVersion(group: string, rest: string)
    requires GroupMatches(group) && rest != "" && '\n' !in rest
    ensures VersionMatches(group + "/" + rest)
  {
    hide GroupMatches;
    var n, version := |group|, group + "/" + rest;
    assert version[..n] == group && version[n] == '/';
    assert forall i | n < i < |version| :: version[i] == rest[i - n - 1];
  }

  /******* The cluster *******/

  type Name = (string, string)
  type Live = map<Name, Ingress>

  function NameOf(i: Ingress): Name {
    (i.namespace, i.name)
  }

  predicate WellNamed(live: Live) {
    forall n | n in live :: NameOf(live[n]) == n
  }

  /** No host of any rule is used by two ingresses. */
  predicate Unique(live: Live) {
    forall m, n, r | m in live && n in live && m != n && r in live[m].rules && r.Some? :: r !in live[n].rules
  }

  predicate Listed(inventory: Inventory, key: Key) {
    key in inventory && key.kind == "Ingress" && VersionMatches(key.apiVersion)
  }

  /** Every live ingress is in the inventory as it is now, under one of its API groups or several; there may be more. */
  ghost predicate Covers(inventory: Inventory, live: Live) {
    forall n | n in live :: exists key :: Listed(inventory, key) && inventory[key] == live[n]
  }

  /** Nothing else is in it either. */
  ghost predicate Exact(inventory: Inventory, live: Live) {
    Covers(inventory, live) && forall key | Listed(inventory, key) :: exists n | n in live :: inventory[key] == live[n]
  }

  predicate IngressReview(review: Review) {
    review.kind == "Ingress" && GroupMatches(review.group)
  }

  /** An ingress of another name that wants one of the same hosts. */
  ghost predicate Rival(review: Review, other: Ingress) {
    && (other.namespace != review.ingress.namespace || other.name != review.ingress.name)
    && exists r | r in other.rules && r.Some? :: r in review.ingress.rules
  }

  ghost predicate LiveRival(review: Review, live: Live) {
    exists n | n in live :: Rival(review, live[n])
  }

  ghost predicate ListedRival(review: Review, inventory: Inventory) {
    exists key | Listed(inventory, key) :: Rival(review, inventory[key])
  }

  /** The rule denies a request exactly if a host of one of its rules is in a rule of a listed ingress of another
      namespace or name. */
  lemma DeniedIff(review: Review, inventory: Inventory)
    requires IngressReview(review)
    ensures Denied(review, inventory) <==>
            exists key, host | Listed(inventory, key) && Some(host) in inventory[key].rules ::
              && Some(host) in review.ingress.rules
              && (inventory[key].namespace != review.ingress.namespace || inventory[key].name != review.ingress.name)
    ensures Denied(review, inventory) <==> ListedRival(review, inventory)
  {
    if Denied(review, inventory) {
      var host :| host in Violation(review, inventory);
      var key :| key in inventory && Conflicts(review, key, inventory[key], host);
      assert Listed(inventory, key) && Some(host) in inventory[key].rules && Some(host) in review.ingress.rules;
      assert Rival(review, inventory[key]);
    }
    if ListedRival(review, inventory) {
      var key :| Listed(inventory, key) && Rival(review, inventory[key]);
      var r :| r in inventory[key].rules && r.Some? && r in review.ingress.rules;
      var host := r.value;
      assert Some(host) in inventory[key].rules && Some(host) in review.ingress.rules;
      assert Conflicts(review, key, inventory[key], host);
      assert host in Violation(review, inventory);
    }
  }

  /** Admitting a request breaks uniqueness exactly if it has a live rival. */
  lemma AdmittedUniqueIff(review: Review, live: Live)
    requires WellNamed(live) && Unique(live)
    ensures Unique(live[NameOf(review.ingress) := review.ingress]) <==> !LiveRival(review, live)
  {
    var own := NameOf(review.ingress);
    var live' := live[own := review.ingress];
    if LiveRival(review, live) {
      var n :| n in live && Rival(review, live[n]);
      var r :| r in live[n].rules && r.Some? && r in review.ingress.rules;
      assert n in live' && own in live' && n != own && r in live'[n].rules && r in live'[own].rules;
    } else {
      forall m, n, r | m in live' && n in live' && m != n && r in live'[m].rules && r.Some?
        ensures r !in live'[n].rules
      {
        if m == own {
          assert !Rival(review, live[n]);
        } else if n == own {
          assert !Rival(review, live[m]);
        }
      }
    }
  }

  /** If there is a live rival, the inventory lists one, the same or another. */
  ghost predicate Noticed(review: Review, inventory: Inventory, live: Live) {
    LiveRival(review, live) ==> ListedRival(review, inventory)
  }

  /** A create or an update leaves hosts unique exactly if the inventory lets a live rival be noticed. */
  lemma PutUniqueIff(review: Review, inventory: Inventory, live: Live)
    requires IngressReview(review) && WellNamed(live) && Unique(live)
    ensures Unique(Next(live, Put(review, inventory))) <==> Noticed(review, inventory, live)
  {
    DeniedIff(review, inventory);
    AdmittedUniqueIff(review, live);
  }

  /** A covering inventory lists every live rival. */
  lemma CoveredNoticed(review: Review, inventory: Inventory, live: Live)
    requires Covers(inventory, live)
    ensures Noticed(review, inventory, live)
  {
    if LiveRival(review, live) {
      var n :| n in live && Rival(review, live[n]);
      var key :| Listed(inventory, key) && inventory[key] == live[n];
      assert Rival(review, inventory[key]);
    }
  }

  /** What passes with a covering inventory keeps hosts unique. */
  lemma AdmittedUnique(review: Review, inventory: Inventory, live: Live)
    requires IngressReview(review) && WellNamed(live) && Unique(live) && Covers(inventory, live)
    requires !Denied(review, inventory)
    ensures Unique(live[NameOf(review.ingress) := review.ingress])
  {
    CoveredNoticed(review, inventory, live);
    DeniedIff(review, inventory);
    AdmittedUniqueIff(review, live);
  }

  /** With an exact inventory a request is denied if and only if admitting it would break uniqueness. */
  lemma ExactDenial(review: Review, inventory: Inventory, live: Live)
    requires IngressReview(review) && WellNamed(live) && Unique(live) && Exact(inventory, live)
    ensures Denied(review, inventory) <==> !Unique(live[NameOf(review.ingress) := review.ingress])
  {
    DeniedIff(review, inventory);
    AdmittedUniqueIff(review, live);
    CoveredNoticed(review, inventory, live);
    if ListedRival(review, inventory) {
      ListedIsLive(review, inventory, live);
    }
  }

  lemma ListedIsLive(review: Review, inventory: Inventory, live: Live)
    requires Exact(inventory, live) && ListedRival(review, inventory)
    ensures LiveRival(review, live)
  {
    hide Covers, Rival, VersionMatches;
    var key :| Listed(inventory, key) && Rival(review, inventory[key]);
    var n :| n in live && inventory[key] == live[n];
    assert Rival(review, live[n]);
  }

  /******* Runs *******/

  /** A create or an update goes through the rule, with whatever the inventory holds at that time; a deletion does
      not. */
  datatype Request = Put(review: Review, inventory: Inventory) | Remove(name: Name)

  function Next(live: Live, r: Request): Live {
    match r
    case Put(review, inventory) =>
      if Denied(review, inventory) then live else live[NameOf(review.ingress) := review.ingress]
    case Remove(name) => live - {name}
  }

  function After(live: Live, requests: seq<Request>): Live
    decreases |requests|
  {
    if requests == [] then live else After(Next(live, requests[0]), requests[1..])
  }

  ghost predicate AlwaysUnique(live: Live, requests: seq<Request>)
    decreases |requests|
  {
    Unique(live) && (requests == [] || AlwaysUnique(Next(live, requests[0]), requests[1..]))
  }

  /** Every request of the run that has a live rival at its time meets an inventory that lists one. */
  ghost predicate AllNoticed(live: Live, requests: seq<Request>)
    decreases |requests|
  {
    requests == [] ||
    (&& (requests[0].Put? ==> Noticed(requests[0].review, requests[0].inventory, live))
     && AllNoticed(Next(live, requests[0]), requests[1..]))
  }

  predicate AllIngresses(requests: seq<Request>) {
    forall i | 0 <= i < |requests| :: requests[i].Put? ==> IngressReview(requests[i].review)
  }

  lemma NextWellNamed(live: Live, r: Request)
    requires WellNamed(live)
    ensures WellNamed(Next(live, r))
    ensures r.Remove? && Unique(live) ==> Unique(Next(live, r))
  {
    if r.Remove? {
      assert forall n | n in live - {r.name} :: (live - {r.name})[n] == live[n];
    }
  }

  /** Hosts are unique at every moment of a run exactly if every rival is noticed. */
  lemma {:induction false} RunsUniqueIff(live: Live, requests: seq<Request>)
    requires WellNamed(live) && Unique(live) && AllIngresses(requests)
    ensures AlwaysUnique(live, requests) <==> AllNoticed(live, requests)
    decreases |requests|
  {
    if requests != [] {
      var r := requests[0];
      NextWellNamed(live, r);
      if r.Put? {
        PutUniqueIff(r.review, r.inventory, live);
      }
      if Unique(Next(live, r)) {
        RunsUniqueIff(Next(live, r), requests[1..]);
      }
    }
  }

  /** Each review of the run sees an inventory that covers what is live then. */
  ghost predicate Seen(live: Live, requests: seq<Request>)
    decreases |requests|
  {
    requests == [] ||
    ((requests[0].Put? ==> Covers(requests[0].inventory, live)) && Seen(Next(live, requests[0]), requests[1..]))
  }

  lemma {:induction false} SeenNoticed(live: Live, requests: seq<Request>)
    requires Seen(live, requests)
    ensures AllNoticed(live, requests)
    decreases |requests|
  {
    if requests != [] {
      if requests[0].Put? {
        CoveredNoticed(requests[0].review, requests[0].inventory, live);
      }
      SeenNoticed(Next(live, requests[0]), requests[1..]);
    }
  }

  /** So they are over every run whose reviews see all that is live, however stale the rest of the inventory is. */
  lemma RunsUnique(live: Live, requests: seq<Request>)
    requires WellNamed(live) && Unique(live) && AllIngresses(requests) && Seen(live, requests)
    ensures AlwaysUnique(live, requests)
    ensures var live' := After(live, requests);
            forall m, n, host | m in live' && n in live' && m != n && Some(host) in live'[m].rules ::
              Some(host) !in live'[n].rules
  {
    SeenNoticed(live, requests);
    RunsUniqueIff(live, requests);
    AlwaysUniqueAfter(live, requests);
    var live' := After(live, requests);
    forall m, n, host | m in live' && n in live' && m != n && Some(host) in live'[m].rules
      ensures Some(host) !in live'[n].rules
    {
      var r := Some(host);
      assert r in live'[m].rules && r.Some?;
    }
  }

  lemma {:induction false} AlwaysUniqueAfter(live: Live, requests: seq<Request>)
    requires AlwaysUnique(live, requests)
    ensures Unique(After(live, requests))
    decreases |requests|
  {
    if requests != [] {
      AlwaysUniqueAfter(Next(live, requests[0]), requests[1..]);
    }
  }

  /** Two requests for one host are both admitted if the inventory has not caught up with the first. */
  lemma {:induction false} LaggingExample() returns (requests: seq<Request>)
    ensures !Unique(After(map[], requests))
    ensures forall i | 0 <= i < |requests| :: requests[i].Put? && IngressReview(requests[i].review)
  {
    var a, b := Ingress("x", "a", [Some("h")]), Ingress("y", "b", [Some("h")]);
    UsualGroups();
    requests := [Put(Review("Ingress", "extensions", a), map[]), Put(Review("Ingress", "extensions", b), map[])];
    forall i | 0 <= i < 2 ensures !Denied(requests[i].review, requests[i].inventory) {
      assert Violation(requests[i].review, requests[i].inventory) == {};
    }
    var live := After(map[], requests);
    assert Next(map[], requests[0]) == map[("x", "a") := a];
    assert requests[1..] == [requests[1]] && [requests[1]][1..] == [];
    assert live == After(map[("x", "a") := a], [requests[1]]);
    var first := map[("x", "a") := a];
    assert Next(first, requests[1]) == first[("y", "b") := b];
    assert live == After(first[("y", "b") := b], []) == first[("y", "b") := b];
    assert Some("h") in a.rules && Some("h") in b.rules && "h" in Hosts(a) && "h" in Hosts(b);
    assert live[("x", "a")] == a && live[("y", "b")] == b;
    assert ("x", "a") in live && ("y", "b") in live;
  }

  /** An inventory that still holds a deleted ingress denies a request that would break nothing. */
  lemma StaleExample() returns (review: Review, inventory: Inventory)
    ensures IngressReview(review) && Covers(inventory, map[]) && Denied(review, inventory)
    ensures Unique(map[NameOf(review.ingress) := review.ingress])
  {
    var a, b := Ingress("x", "a", [Some("h")]), Ingress("y", "b", [Some("h")]);
    UsualGroups();
    review := Review("Ingress", "extensions", b);
    var key := Key("x", "extensions/v1beta1", "Ingress", "a");
    inventory := map[key := a];
    assert Some("h") in a.rules && Some("h") in b.rules && "h" in Hosts(b);
    assert Conflicts(review, key, inventory[key], "h");
    assert "h" in Violation(review, inventory);
  }
}
