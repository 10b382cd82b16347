/** Convergence of a member update, and what holds between any two of its calls. */
module MemberProperties {
  import opened Rancher
  import opened Sums
  import opened ProjectMembers

  /******* Members up to their ids *******/

  /** What the equivalence of members looks at. */
  type Key = (string, string, string)

  function KeyOf(m: Member): Key {
    (m.kind, m.principalId, m.roleTemplateId)
  }

  function BindingKey(b: Binding): Key {
    KeyOf(Decode(b))
  }

  function Keys(bindings: seq<Binding>): set<Key> {
    set b | b in bindings :: BindingKey(b)
  }

  function Wanted(desired: seq<Member>): set<Key> {
    set m | m in desired :: KeyOf(m)
  }

  lemma HasMemberKey(members: seq<Member>, m: Member)
    ensures HasMember(members, m) <==> KeyOf(m) in Wanted(members)
  {
  }

  lemma DecodedKeys(bindings: seq<Binding>)
    ensures Wanted(Members(bindings)) == Keys(bindings)
  {
    var members := Members(bindings);
    forall b | b in bindings ensures Decode(b) in members {
      var i :| 0 <= i < |bindings| && bindings[i] == b;
      assert members[i] == Decode(b);
    }
    forall m | m in members ensures exists b | b in bindings :: Decode(b) == m {
      var i :| 0 <= i < |members| && members[i] == m;
      assert bindings[i] in bindings;
    }
  }

  /** An update that starts from `held`. */
  datatype Update = Update(held: seq<Binding>, desired: seq<Member>, projectId: string, env: Environment)

  ghost predicate Sound(u: Update) {
    DistinctIds(u.held) && FreshIds(u.env.ids, u.held)
  }

  function Additions(u: Update): seq<Member> {
    NewMembers(Members(u.held), u.desired)
  }

  function Deletions(u: Update): seq<Member> {
    DeletedMembers(Members(u.held), u.desired)
  }

  function State(u: Update, n: nat): seq<Binding>
    requires n <= Calls(u.held, u.desired)
  {
    StateAt(u.held, u.desired, u.projectId, u.env, n)
  }

  function Final(u: Update): seq<Binding> {
    State(u, Calls(u.held, u.desired))
  }

  lemma Addition(u: Update, m: Member)
    ensures m in Additions(u) <==> m in u.desired && KeyOf(m) !in Keys(u.held)
  {
    DecodedKeys(u.held);
    HasMemberKey(Members(u.held), m);
  }

  /** Deletions go by id, and an id belongs to one binding. */
  lemma Deletion(u: Update, b: Binding)
    requires DistinctIds(u.held) && b in u.held
    ensures (exists d | d in Deletions(u) :: d.id == b.id) <==> BindingKey(b) !in Wanted(u.desired)
  {
    var members := Members(u.held);
    HasMemberKey(u.desired, Decode(b));
    var i :| 0 <= i < |u.held| && u.held[i] == b;
    assert members[i] == Decode(b);
    if d :| d in Deletions(u) && d.id == b.id {
      assert d in members;
      var j :| 0 <= j < |members| && members[j] == d;
      assert Decode(u.held[j]) == d;
      SameId(u.held, i, j);
    }
    if BindingKey(b) !in Wanted(u.desired) {
      assert Decode(b) in Deletions(u);
    }
  }

  lemma SameId(bindings: seq<Binding>, i: nat, j: nat)
    requires DistinctIds(bindings) && i < |bindings| && j < |bindings| && bindings[i].id == bindings[j].id
    ensures i == j
  {
    var key := (b: Binding) => b.id;
    assert Keyed(bindings, key);
    assert key(bindings[i]) == key(bindings[j]);
  }

  /******* Exactly which bindings there are after a number of calls *******/

  ghost predicate AddedBy(u: Update, n: nat, b: Binding)
    requires n <= |Additions(u)|
  {
    exists i: nat | i < n :: AddedAt(u, i, b)
  }

  ghost predicate AddedAt(u: Update, i: nat, b: Binding)
    requires i < |Additions(u)|
  {
    ValidKind(Additions(u)[i]) && u.env.adds(i) != Refused && b == Encode(Additions(u)[i], u.projectId, u.env.ids(i))
  }

  ghost predicate DeletedBy(u: Update, n: nat, id: string)
    requires n <= |Deletions(u)|
  {
    exists j: nat | j < n :: DeletedAt(u, j, id)
  }

  ghost predicate DeletedAt(u: Update, j: nat, id: string)
    requires j < |Deletions(u)|
  {
    Deletions(u)[j].id == id && u.env.deletes(j) != Refused
  }

  lemma {:induction false} AddsExactly(u: Update, n: nat, b: Binding)
    requires n <= |Additions(u)|
    ensures b in AfterAdds(u.held, Additions(u), u.projectId, u.env, n) <==> b in u.held || AddedBy(u, n, b)
  {
    if n > 0 {
      AddsExactly(u, n - 1, b);
      assert AddedBy(u, n, b) <==> AddedBy(u, n - 1, b) || AddedAt(u, n - 1, b);
    }
  }

  lemma {:induction false} DeletesExactly(u: Update, bindings: seq<Binding>, n: nat, b: Binding)
    requires n <= |Deletions(u)|
    ensures b in AfterDeletes(bindings, Deletions(u), u.env, n) <==> b in bindings && !DeletedBy(u, n, b.id)
  {
    if n > 0 {
      DeletesExactly(u, bindings, n - 1, b);
      assert DeletedBy(u, n, b.id) <==> DeletedBy(u, n - 1, b.id) || DeletedAt(u, n - 1, b.id);
    }
  }

  lemma DeletionHeld(u: Update, j: nat)
    requires j < |Deletions(u)|
    ensures exists b | b in u.held :: b.id == Deletions(u)[j].id
  {
    var d := Deletions(u)[j];
    assert d in Members(u.held);
    var k :| 0 <= k < |u.held| && Members(u.held)[k] == d;
    assert u.held[k] in u.held && u.held[k].id == d.id;
  }

  lemma AddedStays(u: Update, n: nat, b: Binding)
    requires Sound(u) && n <= |Deletions(u)| && AddedBy(u, |Additions(u)|, b)
    ensures !DeletedBy(u, n, b.id)
  {
    var i: nat :| i < |Additions(u)| && AddedAt(u, i, b);
    forall j: nat | j < n ensures Deletions(u)[j].id != b.id {
      DeletionHeld(u, j);
    }
  }

  lemma HeldNotAdded(u: Update, n: nat, b: Binding)
    requires Sound(u) && n <= |Additions(u)| && b in u.held
    ensures !AddedBy(u, n, b)
  {
  }

  lemma UnwantedDeleted(u: Update, b: Binding)
    requires Sound(u) && AllApplied(u) && b in u.held && BindingKey(b) !in Wanted(u.desired)
    ensures DeletedBy(u, |Deletions(u)|, b.id)
  {
    Deletion(u, b);
    var d :| d in Deletions(u) && d.id == b.id;
    var j :| 0 <= j < |Deletions(u)| && Deletions(u)[j] == d;
    assert DeletedAt(u, j, b.id);
  }

  lemma DeletedUnwanted(u: Update, n: nat, b: Binding)
    requires Sound(u) && n <= |Deletions(u)| && b in u.held && DeletedBy(u, n, b.id)
    ensures BindingKey(b) !in Wanted(u.desired)
  {
    var j: nat :| j < n && DeletedAt(u, j, b.id);
    assert Deletions(u)[j] in Deletions(u);
    Deletion(u, b);
  }

  function AddsMade(u: Update, n: nat): nat {
    if n <= |Additions(u)| then n else |Additions(u)|
  }

  function DeletesMade(u: Update, n: nat): nat {
    if n <= |Additions(u)| then 0 else n - |Additions(u)|
  }

  lemma NothingDeleted(u: Update, id: string)
    ensures !DeletedBy(u, 0, id)
  {
  }

  /** After any number of calls, what is held is what was held and has not been deleted, with its ids, and what has
      been added. */
  lemma StateExactly(u: Update, n: nat, b: Binding)
    requires Sound(u) && n <= Calls(u.held, u.desired)
    ensures b in State(u, n) <==>
            (b in u.held && !DeletedBy(u, DeletesMade(u, n), b.id)) || AddedBy(u, AddsMade(u, n), b)
  {
    hide AfterAdds, AfterDeletes, AddedBy, DeletedBy;
    var added := Additions(u);
    if n <= |added| {
      AddsExactly(u, n, b);
      NothingDeleted(u, b.id);
    } else {
      AddsExactly(u, |added|, b);
      DeletesExactly(u, AfterAdds(u.held, added, u.projectId, u.env, |added|), n - |added|, b);
      if AddedBy(u, |added|, b) {
        AddedStays(u, n - |added|, b);
      }
    }
  }

  /** The binding that the server should hold for a member of this project. */
  ghost predicate BindingFor(projectId: string, m: Member, b: Binding) {
    && b.projectId == projectId && b.userId == m.userId && b.roleTemplateId == m.roleTemplateId
    && (|| (m.kind == "User" && b.userPrincipalId == m.principalId && b.groupPrincipalId == "")
        || (m.kind == "Group" && b.groupPrincipalId == m.principalId && b.userPrincipalId == ""))
  }

  /** A binding that was not held before is for this project and for a desired member, user, principal and role. */
  lemma AddedFor(u: Update, n: nat, b: Binding)
    requires Sound(u) && n <= Calls(u.held, u.desired) && b in State(u, n) && b !in u.held
    ensures b.projectId == u.projectId
    ensures exists m | m in u.desired && m in Additions(u) :: BindingFor(u.projectId, m, b)
  {
    StateExactly(u, n, b);
    var i: nat :| i < AddsMade(u, n) && AddedAt(u, i, b);
    var m := Additions(u)[i];
    assert m in Additions(u) && BindingFor(u.projectId, m, b);
  }

  /** An addition of a known kind that takes effect is held from then on, under the id that the server gave it. */
  lemma AdditionHeld(u: Update, i: nat, n: nat) returns (b: Binding)
    requires Sound(u) && i < |Additions(u)| && i < n <= Calls(u.held, u.desired) && u.env.adds(i) != Refused
    requires Additions(u)[i].kind == "User" || Additions(u)[i].kind == "Group"
    ensures b in State(u, n) && b.id == u.env.ids(i) && BindingFor(u.projectId, Additions(u)[i], b)
  {
    b := Encode(Additions(u)[i], u.projectId, u.env.ids(i));
    assert AddedAt(u, i, b) && AddedBy(u, AddsMade(u, n), b);
    StateExactly(u, n, b);
  }

  /** Reading a binding back gives all of its fields, and the kind that its principals say. */
  lemma DecodedFields(b: Binding)
    ensures var m := Decode(b);
            && m.id == b.id && m.userId == b.userId && m.projectId == b.projectId
            && m.roleTemplateId == b.roleTemplateId
            && if b.userPrincipalId != "" then m.kind == "User" && m.principalId == b.userPrincipalId
               else m.kind == "Group" && m.principalId == b.groupPrincipalId
  {
  }

  /******* Bounds on every intermediate state *******/

  /** What the server makes of the members that an update adds. */
  function StoredKeys(u: Update): set<Key> {
    set m | m in Additions(u) && ValidKind(m) :: KeyOf(Decode(Encode(m, "", "")))
  }

  /** At every moment each binding that should stay is there, with its id, and nothing is there but old bindings and
      added ones. */
  lemma {:induction false} Between(u: Update, n: nat)
    requires Sound(u) && n <= Calls(u.held, u.desired)
    ensures forall b | b in u.held && BindingKey(b) in Wanted(u.desired) :: b in State(u, n)
    ensures Keys(u.held) * Wanted(u.desired) <= Keys(State(u, n)) <= Keys(u.held) + StoredKeys(u)
  {
    forall b | b in u.held && BindingKey(b) in Wanted(u.desired) ensures b in State(u, n) {
      StateExactly(u, n, b);
      if DeletedBy(u, DeletesMade(u, n), b.id) {
        DeletedUnwanted(u, DeletesMade(u, n), b);
      }
    }
    forall b | b in State(u, n) ensures BindingKey(b) in Keys(u.held) + StoredKeys(u) {
      StateExactly(u, n, b);
      if AddedBy(u, AddsMade(u, n), b) {
        var i: nat :| i < AddsMade(u, n) && AddedAt(u, i, b);
        assert Additions(u)[i] in Additions(u);
      }
    }
  }

  /** The `i`th addition takes effect, and the server stores it as something neither held before nor desired. */
  predicate Strays(u: Update, i: nat) {
    && i < |Additions(u)| && ValidKind(Additions(u)[i]) && u.env.adds(i) != Refused
    && BindingKey(Encode(Additions(u)[i], u.projectId, u.env.ids(i))) !in Keys(u.held) + Wanted(u.desired)
  }

  ghost predicate Within(u: Update, n: nat)
    requires n <= Calls(u.held, u.desired)
  {
    Keys(State(u, n)) <= Keys(u.held) + Wanted(u.desired)
  }

  /** Every state on the way lies within the old and the desired members exactly if no addition strays. */
  lemma {:induction false} BetweenIff(u: Update)
    requires Sound(u)
    ensures (forall n: nat | n <= Calls(u.held, u.desired) :: Within(u, n)) <==> forall i: nat :: !Strays(u, i)
  {
    hide Within, Strays;
    if i: nat :| Strays(u, i) {
      StrayOutside(u, i);
    } else {
      forall n: nat | n <= Calls(u.held, u.desired) ensures Within(u, n) {
        NoStrayWithin(u, n);
      }
    }
  }

  lemma StrayOutside(u: Update, i: nat)
    requires Sound(u) && Strays(u, i)
    ensures i + 1 <= Calls(u.held, u.desired) && !Within(u, i + 1)
  {
    var b := Encode(Additions(u)[i], u.projectId, u.env.ids(i));
    assert AddedAt(u, i, b) && AddedBy(u, AddsMade(u, i + 1), b);
    StateExactly(u, i + 1, b);
  }

  lemma NoStrayWithin(u: Update, n: nat)
    requires Sound(u) && n <= Calls(u.held, u.desired) && forall i: nat :: !Strays(u, i)
    ensures Within(u, n)
  {
    forall b | b in State(u, n) ensures BindingKey(b) in Keys(u.held) + Wanted(u.desired) {
      StateExactly(u, n, b);
      if AddedBy(u, AddsMade(u, n), b) {
        var i: nat :| i < AddsMade(u, n) && AddedAt(u, i, b);
        assert !Strays(u, i);
      }
    }
  }

  /** So it is if every desired member can be stored as it is. */
  lemma BetweenStorable(u: Update, n: nat)
    requires Sound(u) && n <= Calls(u.held, u.desired) && forall m | m in u.desired :: Storable(m)
    ensures Keys(State(u, n)) <= Keys(u.held) + Wanted(u.desired)
  {
    forall i: nat ensures !Strays(u, i) {
      if i < |Additions(u)| && ValidKind(Additions(u)[i]) {
        assert Additions(u)[i] in Additions(u);
        EncodeDecode(Additions(u)[i], u.projectId, u.env.ids(i));
      }
    }
    BetweenIff(u);
    assert Within(u, n);
  }

  /******* Progress *******/

  function Unwanted(bindings: seq<Binding>, wanted: set<Key>): nat {
    |Filter(bindings, (b: Binding) => BindingKey(b) !in wanted)|
  }

  /** Desired members that are missing, and bindings held that are not desired. */
  function Distance(bindings: seq<Binding>, wanted: set<Key>): nat {
    |wanted - Keys(bindings)| + Unwanted(bindings, wanted)
  }

  lemma Smaller<T>(a: set<T>, b: set<T>)
    requires a <= b
    ensures |a| <= |b|
  {
    assert b == a + (b - a);
  }

  lemma AddedDistance(bindings: seq<Binding>, wanted: set<Key>, b: Binding)
    ensures BindingKey(b) in wanted ==> Distance(bindings + [b], wanted) <= Distance(bindings, wanted)
    ensures BindingKey(b) !in wanted ==> Distance(bindings + [b], wanted) == Distance(bindings, wanted) + 1
  {
    var unwanted := (b: Binding) => BindingKey(b) !in wanted;
    FilterAppend(bindings, [b], unwanted);
    assert [b][1..] == [];
    assert Keys(bindings + [b]) == Keys(bindings) + {BindingKey(b)};
    if BindingKey(b) in wanted {
      Smaller(wanted - Keys(bindings + [b]), wanted - Keys(bindings));
    } else {
      assert wanted - Keys(bindings + [b]) == wanted - Keys(bindings);
    }
  }

  lemma {:induction false} FilterFewer<T>(rows: seq<T>, p: T -> bool, q: T -> bool)
    ensures |Filter(Filter(rows, q), p)| <= |Filter(rows, p)|
  {
    if rows != [] {
      FilterFewer(rows[1..], p, q);
      var first := if q(rows[0]) then [rows[0]] else [];
      FilterAppend(first, Filter(rows[1..], q), p);
    }
  }

  lemma DeletedDistance(bindings: seq<Binding>, wanted: set<Key>, id: string, outcome: Outcome)
    requires forall b | b in bindings && b.id == id :: BindingKey(b) !in wanted
    ensures Distance(Deleted(bindings, id, outcome), wanted) <= Distance(bindings, wanted)
  {
    if outcome != Refused {
      var left := Filter(bindings, (b: Binding) => b.id != id);
      FilterFewer(bindings, (b: Binding) => BindingKey(b) !in wanted, (b: Binding) => b.id != id);
      forall k | k in wanted && k in Keys(bindings) ensures k in Keys(left) {
        var b :| b in bindings && BindingKey(b) == k;
        assert b in left;
      }
      assert wanted - Keys(left) == wanted - Keys(bindings);
    }
  }

  /** Call number `n` adds a member that the server stores as something that is not desired. */
  predicate Misstored(u: Update, n: nat) {
    && n < |Additions(u)| && ValidKind(Additions(u)[n]) && u.env.adds(n) != Refused
    && KeyOf(Decode(Encode(Additions(u)[n], u.projectId, u.env.ids(n)))) !in Wanted(u.desired)
  }

  /** No call takes the project further from what is desired, whether it fails or not, except exactly those. */
  lemma NeverFurther(u: Update, n: nat)
    requires Sound(u) && n < Calls(u.held, u.desired)
    ensures Distance(State(u, n + 1), Wanted(u.desired)) <= Distance(State(u, n), Wanted(u.desired))
       <==> !Misstored(u, n)
  {
    var added, wanted, before := Additions(u), Wanted(u.desired), State(u, n);
    if n < |added| {
      if ValidKind(added[n]) && u.env.adds(n) != Refused {
        AddedDistance(before, wanted, Encode(added[n], u.projectId, u.env.ids(n)));
      }
    } else {
      var d := Deletions(u)[n - |added|];
      assert State(u, n + 1) == Deleted(before, d.id, u.env.deletes(n - |added|));
      forall b | b in before && b.id == d.id ensures BindingKey(b) !in wanted {
        DeletedIsOld(u, n, b);
        Deletion(u, b);
      }
      DeletedDistance(before, wanted, d.id, u.env.deletes(n - |added|));
    }
  }

  /** If every desired member can be stored as it is, no call ever does, however the calls end. */
  lemma NeverFurtherStorable(u: Update, n: nat)
    requires Sound(u) && n < Calls(u.held, u.desired) && forall m | m in u.desired :: Storable(m)
    ensures Distance(State(u, n + 1), Wanted(u.desired)) <= Distance(State(u, n), Wanted(u.desired))
  {
    if n < |Additions(u)| && ValidKind(Additions(u)[n]) {
      assert Additions(u)[n] in Additions(u);
      EncodeDecode(Additions(u)[n], u.projectId, u.env.ids(n));
    }
    NeverFurther(u, n);
  }

  lemma DeletedIsOld(u: Update, n: nat, b: Binding)
    requires Sound(u) && |Additions(u)| <= n < Calls(u.held, u.desired)
    requires b in State(u, n) && b.id == Deletions(u)[n - |Additions(u)|].id
    ensures b in u.held && Deletions(u)[n - |Additions(u)|] in Deletions(u)
  {
    StateExactly(u, n, b);
    var d := Deletions(u)[n - |Additions(u)|];
    DeletionHeld(u, n - |Additions(u)|);
  }

  /******* The end *******/

  ghost predicate AllApplied(u: Update) {
    && (forall i: nat | i < |Additions(u)| :: u.env.adds(i) != Refused)
    && (forall j: nat | j < |Deletions(u)| :: u.env.deletes(j) != Refused)
  }

  lemma FinalWanted(u: Update, b: Binding)
    requires Sound(u) && AllApplied(u) && b in u.held && b in Final(u)
    ensures BindingKey(b) in Wanted(u.desired)
  {
    StateExactly(u, Calls(u.held, u.desired), b);
    HeldNotAdded(u, |Additions(u)|, b);
    if BindingKey(b) !in Wanted(u.desired) {
      UnwantedDeleted(u, b);
    }
  }

  lemma FinalAdded(u: Update, m: Member)
    requires Sound(u) && AllApplied(u) && m in Additions(u) && ValidKind(m)
    ensures KeyOf(Decode(Encode(m, "", ""))) in Keys(Final(u))
  {
    var i :| 0 <= i < |Additions(u)| && Additions(u)[i] == m;
    var b := Encode(m, u.projectId, u.env.ids(i));
    assert AddedAt(u, i, b);
    assert AddedBy(u, |Additions(u)|, b);
    StateExactly(u, Calls(u.held, u.desired), b);
    assert BindingKey(b) == KeyOf(Decode(Encode(m, "", "")));
  }

  /** When every call takes effect, the members read back are the desired ones exactly if those are well formed: a
      known kind, and a principal for each user. */
  lemma Converges(u: Update)
    requires Sound(u) && AllApplied(u)
    ensures Keys(Final(u)) == Wanted(u.desired) <==> forall m | m in u.desired :: Storable(m)
  {
    if forall m | m in u.desired :: Storable(m) {
      forall b | b in Final(u) ensures BindingKey(b) in Wanted(u.desired) {
        StateExactly(u, Calls(u.held, u.desired), b);
        if b in u.held {
          FinalWanted(u, b);
        } else {
          var i: nat :| i < |Additions(u)| && AddedAt(u, i, b);
          assert Additions(u)[i] in Additions(u);
          EncodeDecode(Additions(u)[i], u.projectId, u.env.ids(i));
        }
      }
      forall m | m in u.desired ensures KeyOf(m) in Keys(Final(u)) {
        Addition(u, m);
        if m in Additions(u) {
          FinalAdded(u, m);
          EncodeDecode(m, "", "");
        } else {
          Between(u, Calls(u.held, u.desired));
          assert KeyOf(m) in Keys(u.held) * Wanted(u.desired);
        }
      }
    }
    if Keys(Final(u)) == Wanted(u.desired) {
      forall m | m in u.desired ensures Storable(m) {
        assert KeyOf(m) in Keys(Final(u));
        var b :| b in Final(u) && BindingKey(b) == KeyOf(m);
        DecodedStorable(b);
      }
    }
  }

  /** A binding that grants a desired member its role. */
  predicate Grants(b: Binding, m: Member) {
    && b.roleTemplateId == m.roleTemplateId
    && (|| (m.kind == "User" && m.principalId != "" && b.userPrincipalId == m.principalId)
        || (m.kind == "Group" && b.userPrincipalId == "" && b.groupPrincipalId == m.principalId))
  }

  lemma GrantsKey(b: Binding, m: Member)
    ensures Grants(b, m) <==> BindingKey(b) == KeyOf(m)
  {
  }

  /** Every desired member is granted its role, and nobody else any. */
  ghost predicate GrantsExactly(bindings: seq<Binding>, desired: seq<Member>) {
    && (forall m | m in desired :: exists b | b in bindings :: Grants(b, m))
    && (forall b | b in bindings :: exists m | m in desired :: Grants(b, m))
  }

  lemma GrantsKeys(bindings: seq<Binding>, desired: seq<Member>)
    requires Keys(bindings) == Wanted(desired)
    ensures GrantsExactly(bindings, desired)
  {
    hide Grants, BindingKey, KeyOf;
    forall m | m in desired ensures exists b | b in bindings :: Grants(b, m) {
      assert KeyOf(m) in Keys(bindings);
      var b :| b in bindings && BindingKey(b) == KeyOf(m);
      GrantsKey(b, m);
    }
    forall b | b in bindings ensures exists m | m in desired :: Grants(b, m) {
      assert BindingKey(b) in Wanted(desired);
      var m :| m in desired && KeyOf(m) == BindingKey(b);
      GrantsKey(b, m);
    }
  }

  /** In terms of what the server stores: an update whose calls all take effect ends with exactly the desired grants if
      and only if each desired member is a group, or a user with a principal. */
  lemma ConvergesToGrants(u: Update)
    requires Sound(u) && AllApplied(u)
    ensures GrantsExactly(Final(u), u.desired)
       <==> forall m | m in u.desired :: m.kind == "Group" || (m.kind == "User" && m.principalId != "")
  {
    hide Final, BindingKey, KeyOf, AllApplied;
    Converges(u);
    if Keys(Final(u)) == Wanted(u.desired) {
      GrantsKeys(Final(u), u.desired);
    }
  }

  /** There is nothing to do exactly if the members agree. */
  lemma NothingToDo(held: seq<Binding>, desired: seq<Member>)
    ensures Calls(held, desired) == 0 <==> Keys(held) == Wanted(desired)
  {
    var members := Members(held);
    DecodedKeys(held);
    var added, deleted := NewMembers(members, desired), DeletedMembers(members, desired);
    forall m ensures m in added <==> m in desired && KeyOf(m) !in Keys(held)
      ensures m in deleted <==> m in members && KeyOf(m) !in Wanted(desired)
    {
      HasMemberKey(members, m);
      HasMemberKey(desired, m);
    }
    if added == [] && deleted == [] {
      assert Keys(held) == Wanted(desired);
    }
    if added != [] {
      assert added[0] in added;
    }
    if deleted != [] {
      assert deleted[0] in deleted;
    }
  }

  /** A second update with the same well-formed members issues no call. */
  lemma SecondUpdate(u: Update)
    requires Sound(u) && AllApplied(u) && forall m | m in u.desired :: Storable(m)
    ensures Calls(Final(u), u.desired) == 0
  {
    Converges(u);
    NothingToDo(Final(u), u.desired);
  }

  /** After failures the next update tries again exactly what did not take effect. */
  lemma {:induction false} RetriesFailures(u: Update, m: Member, b: Binding)
    requires Sound(u) && (forall m | m in u.desired :: Storable(m)) && m in u.desired && b in u.held
    ensures m in NewMembers(Members(Final(u)), u.desired) <==>
            && m in Additions(u)
            && forall i: nat | i < |Additions(u)| && Compare(Additions(u)[i], m) :: u.env.adds(i) == Refused
    ensures (b in Final(u) && Decode(b) in DeletedMembers(Members(Final(u)), u.desired)) <==>
            BindingKey(b) !in Wanted(u.desired) && !DeletedBy(u, |Deletions(u)|, b.id)
  {
    RetriesAddition(u, m);
    RetriesDeletion(u, b);
  }

  lemma RetriesAddition(u: Update, m: Member)
    requires Sound(u) && (forall m | m in u.desired :: Storable(m)) && m in u.desired
    ensures m in NewMembers(Members(Final(u)), u.desired) <==>
            && m in Additions(u)
            && forall i: nat | i < |Additions(u)| && Compare(Additions(u)[i], m) :: u.env.adds(i) == Refused
  {
    var n := Calls(u.held, u.desired);
    DecodedKeys(Final(u));
    HasMemberKey(Members(Final(u)), m);
    Addition(u, m);
    if KeyOf(m) in Keys(u.held) {
      Between(u, n);
      assert KeyOf(m) in Keys(u.held) * Wanted(u.desired);
    }
    if KeyOf(m) in Keys(Final(u)) && m in Additions(u) {
      var c :| c in Final(u) && BindingKey(c) == KeyOf(m);
      StateExactly(u, n, c);
      var i: nat :| i < |Additions(u)| && AddedAt(u, i, c);
      assert Additions(u)[i] in Additions(u);
      EncodeDecode(Additions(u)[i], u.projectId, u.env.ids(i));
    }
    forall i: nat | i < |Additions(u)| && Compare(Additions(u)[i], m) && u.env.adds(i) != Refused
      ensures KeyOf(m) in Keys(Final(u))
    {
      assert Additions(u)[i] in Additions(u);
      var c := Encode(Additions(u)[i], u.projectId, u.env.ids(i));
      EncodeDecode(Additions(u)[i], u.projectId, u.env.ids(i));
      assert AddedAt(u, i, c) && AddedBy(u, |Additions(u)|, c);
      StateExactly(u, n, c);
    }
  }

  lemma RetriesDeletion(u: Update, b: Binding)
    requires Sound(u) && b in u.held
    ensures (b in Final(u) && Decode(b) in DeletedMembers(Members(Final(u)), u.desired)) <==>
            BindingKey(b) !in Wanted(u.desired) && !DeletedBy(u, |Deletions(u)|, b.id)
  {
    StateExactly(u, Calls(u.held, u.desired), b);
    HasMemberKey(u.desired, Decode(b));
    if b in Final(u) {
      var i :| 0 <= i < |Final(u)| && Final(u)[i] == b;
      assert Members(Final(u))[i] == Decode(b);
    }
    HeldNotAdded(u, |Additions(u)|, b);
  }

  /** A user without a principal is stored as a group without one, so it is added again by every update and the one
      stored before is deleted. */
  lemma {:induction false} MalformedExample() returns (u: Update)
    ensures Sound(u) && AllApplied(u) && Misstored(u, 0) && Calls(Final(u), u.desired) > 0
  {
    var user := Member("", "u", "", USER, "", "project-member");
    u := Update([], [user], "p",
                Environment(true, true, true, (i: nat) => Done, (i: nat) => Done, (i: nat) => Long(i)));
    forall i, j | i != j ensures u.env.ids(i) != u.env.ids(j) {
      assert |Long(i)| == i && |Long(j)| == j;
    }
    var isNew := (m: Member) => !HasMember(Members([]), m);
    assert isNew(user);
    assert [user][1..] == [] && Filter([user], isNew) == [user] + Filter([], isNew);
    assert Additions(u) == [user];
    assert !Storable(user) && user in u.desired;
    Converges(u);
    NothingToDo(Final(u), u.desired);
  }

  function Long(n: nat): (s: string)
    ensures |s| == n
  {
    seq(n, _ => 'x')
  }
}
