/** Policy.status.referencedBy as an index over PolicyGroup.status: kept by group reconciles that
    only touch the policies a group resolved before or resolves now. */
module ReverseIndex {
  import opened Names
  import opened GroupResolve

  datatype Group = Group(spec: PolicyGroupSpec, deleting: bool, finalizer: bool, resolved: seq<EffectiveMember>)
  datatype PolicyRow = PolicyRow(policy: Policy, referencedBy: seq<string>)

  /** The API server; `stale` holds the policies created while some group's status already named them,
      until a reconcile of such a group recomputes their index entry. */
  datatype World = World(groups: map<string, Group>, policies: map<string, PolicyRow>, stale: set<string>)

  const EMPTY := World(map[], map[], {})

  function MemberNames(members: seq<EffectiveMember>, j: nat := |members|): set<string>
    requires j <= |members|
  {
    if j == 0 then {} else MemberNames(members, j - 1) + {members[j - 1].name}
  }

  predicate Lists(g: Group, n: string) {
    n in MemberNames(g.resolved)
  }

  /** The groups not being deleted whose status lists the policy. */
  function Live(groups: map<string, Group>, n: string): set<string> {
    set g | g in groups && !groups[g].deleting && Lists(groups[g], n)
  }

  /** The groups awaiting finalizer cleanup whose status lists the policy. */
  function Dying(groups: map<string, Group>, n: string): set<string> {
    set g | g in groups && groups[g].deleting && Lists(groups[g], n)
  }

  /** `refreshReferencedBy`. */
  ghost function Refresh(w: World, touch: set<string>): World {
    w.(policies := map n | n in w.policies ::
         if n in touch then w.policies[n].(referencedBy := Listing(Live(w.groups, n))) else w.policies[n],
       stale := w.stale - touch)
  }

  ghost function Members(spec: PolicyGroupSpec, listed: seq<Policy>): seq<EffectiveMember> {
    if spec.enabled then SortedValues(Resolved(spec, listed)) else []
  }

  /** The group's new status, and the entries of the policies it resolved before or resolves now. */
  ghost function Record(w: World, name: string, members: seq<EffectiveMember>): World
    requires name in w.groups
  {
    var g := w.groups[name];
    Refresh(w.(groups := w.groups[name := g.(finalizer := true, resolved := members)]),
            MemberNames(g.resolved) + MemberNames(members))
  }

  /** One uninterrupted `Reconcile` of a group; `listed` is what listing the policies returned. */
  ghost function Reconcile(w: World, name: string, listed: seq<Policy>): World {
    if name !in w.groups then w
    else
      var g := w.groups[name];
      if g.deleting then
        if !g.finalizer then w
        else Refresh(w, MemberNames(g.resolved)).(groups := w.groups - {name})
      else
        Record(w, name, Members(g.spec, listed))
  }

  datatype Event =
    | CreateGroup(name: string, spec: PolicyGroupSpec)
    | EditGroup(name: string, spec: PolicyGroupSpec)
    | DeleteGroup(name: string)
    | CreatePolicy(policy: Policy)
    | EditPolicy(policy: Policy)
    | DeletePolicy(name: string)
    | ReconcileGroup(name: string, listed: seq<Policy>)

  ghost predicate Enabled(w: World, e: Event) {
    match e
    case CreateGroup(name, _) => name !in w.groups
    case EditGroup(name, _) => name in w.groups
    case DeleteGroup(name) => name in w.groups
    case CreatePolicy(policy) => policy.name !in w.policies
    case EditPolicy(policy) => policy.name in w.policies
    case DeletePolicy(name) => name in w.policies
    case ReconcileGroup(_, _) => true
  }

  ghost function Apply(w: World, e: Event): World
    requires Enabled(w, e)
  {
    match e
    case CreateGroup(name, spec) => w.(groups := w.groups[name := Group(spec, false, false, [])])
    case EditGroup(name, spec) => w.(groups := w.groups[name := w.groups[name].(spec := spec)])
    case DeleteGroup(name) =>
      if w.groups[name].finalizer then w.(groups := w.groups[name := w.groups[name].(deleting := true)])
      else w.(groups := w.groups - {name})
    case CreatePolicy(policy) =>
      w.(policies := w.policies[policy.name := PolicyRow(policy, [])],
         stale := if Live(w.groups, policy.name) == {} then w.stale else w.stale + {policy.name})
    case EditPolicy(policy) => w.(policies := w.policies[policy.name := w.policies[policy.name].(policy := policy)])
    case DeletePolicy(name) => w.(policies := w.policies - {name}, stale := w.stale - {name})
    case ReconcileGroup(name, listed) => Reconcile(w, name, listed)
  }

  /** The entry is a sorted list holding every live group and otherwise only dying ones. */
  ghost predicate Exact(w: World, n: string)
    requires n in w.policies
  {
    var refs := w.policies[n].referencedBy;
    && refs == Listing(Elements(refs))
    && Live(w.groups, n) <= Elements(refs) <= Live(w.groups, n) + Dying(w.groups, n)
  }

  ghost predicate Inv(w: World) {
    && (forall g :: g in w.groups && !w.groups[g].finalizer ==> w.groups[g].resolved == [] && !w.groups[g].deleting)
    && (forall n :: n in w.policies && n !in w.stale ==> Exact(w, n))
    && (forall n :: n in w.stale ==> n in w.policies && w.policies[n].referencedBy == [])
  }

  lemma ListingElements(keys: set<string>)
    ensures Elements(Listing(keys)) == keys
  {
    ElementsContents(Listing(keys), |Listing(keys)|);
    forall x ensures x in Elements(Listing(keys)) <==> x in keys {
      ListingContents(keys, x);
      if x in Listing(keys) { var i :| 0 <= i < |Listing(keys)| && Listing(keys)[i] == x; }
    }
  }

  lemma RefreshExact(w: World, touch: set<string>, n: string)
    requires n in w.policies && (n in touch || Exact(w, n))
    ensures Exact(Refresh(w, touch), n)
  {
    if n in touch { ListingElements(Live(w.groups, n)); }
  }

  /** Where no group's status changes what it says of `n`, its entry stays exact. */
  lemma ExactKept(w: World, w': World, n: string)
    requires n in w.policies && n in w'.policies && Exact(w, n)
    requires w'.policies[n].referencedBy == w.policies[n].referencedBy
    requires Live(w'.groups, n) <= Live(w.groups, n)
    requires Live(w.groups, n) + Dying(w.groups, n) <= Live(w'.groups, n) + Dying(w'.groups, n)
    ensures Exact(w', n)
  {
  }

  lemma FinalizeExact(w: World, name: string, n: string)
    requires Inv(w) && name in w.groups && w.groups[name].deleting && w.groups[name].finalizer
    requires n in w.policies && (n !in w.stale || Lists(w.groups[name], n))
    ensures Exact(Refresh(w, MemberNames(w.groups[name].resolved)).(groups := w.groups - {name}), n)
  {
    var prev := MemberNames(w.groups[name].resolved);
    var w1 := Refresh(w, prev);
    var w2 := w1.(groups := w.groups - {name});
    RefreshExact(w, prev, n);
    assert Live(w2.groups, n) == Live(w.groups, n);
    if n in prev {
      ListingElements(Live(w.groups, n));
    } else {
      assert Dying(w2.groups, n) == Dying(w.groups, n);
    }
  }

  lemma ResolveExact(w: World, name: string, members: seq<EffectiveMember>, n: string)
    requires Inv(w) && name in w.groups && !w.groups[name].deleting
    requires n in w.policies && (n !in w.stale || Lists(w.groups[name], n) || n in MemberNames(members))
    ensures Exact(Record(w, name, members), n)
  {
    var g := w.groups[name];
    var w1 := w.(groups := w.groups[name := g.(finalizer := true, resolved := members)]);
    var touch := MemberNames(g.resolved) + MemberNames(members);
    if n !in touch {
      assert Live(w1.groups, n) == Live(w.groups, n) && Dying(w1.groups, n) == Dying(w.groups, n);
      ExactKept(w, w1, n);
    }
    RefreshExact(w1, touch, n);
  }

  lemma ReconcileExact(w: World, name: string, listed: seq<Policy>, n: string)
    requires Inv(w) && n in w.policies && n !in Reconcile(w, name, listed).stale
    ensures Exact(Reconcile(w, name, listed), n)
  {
    if name in w.groups {
      var g := w.groups[name];
      if !g.deleting {
        ResolveExact(w, name, Members(g.spec, listed), n);
      } else if g.finalizer {
        FinalizeExact(w, name, n);
      }
    }
  }

  /** Edits of groups never put a group among those that list a policy, and a deletion takes none out
      before its cleanup has run. */
  lemma GroupEdits(w: World, e: Event, n: string)
    requires Inv(w) && Enabled(w, e) && !e.ReconcileGroup?
    ensures Live(Apply(w, e).groups, n) <= Live(w.groups, n)
    ensures Live(w.groups, n) + Dying(w.groups, n) <= Live(Apply(w, e).groups, n) + Dying(Apply(w, e).groups, n)
  {
    assert MemberNames([]) == {};
  }

  /** Every event but a reconcile keeps the entries as they are. */
  lemma EditExact(w: World, e: Event, n: string)
    requires Inv(w) && Enabled(w, e) && !e.ReconcileGroup?
    requires n in Apply(w, e).policies && n !in Apply(w, e).stale
    ensures Exact(Apply(w, e), n)
  {
    if e.CreatePolicy? && n == e.policy.name {
      assert Listing({}) == [];
    } else {
      assert Exact(w, n);
      GroupEdits(w, e, n);
      ExactKept(w, Apply(w, e), n);
    }
  }

  lemma ApplyInv(w: World, e: Event)
    requires Inv(w) && Enabled(w, e)
    ensures Inv(Apply(w, e))
  {
    var w' := Apply(w, e);
    forall n | n in w'.policies && n !in w'.stale ensures Exact(w', n) {
      if e.ReconcileGroup? { ReconcileExact(w, e.name, e.listed, n); } else { EditExact(w, e, n); }
    }
  }

  /** A run from an empty cluster; events that cannot happen are skipped. */
  ghost function Run(events: seq<Event>, j: nat := |events|): World
    requires j <= |events|
  {
    if j == 0 then EMPTY
    else
      var w := Run(events, j - 1);
      if Enabled(w, events[j - 1]) then Apply(w, events[j - 1]) else w
  }

  lemma EventInv(w: World, e: Event)
    requires Inv(w)
    ensures Inv(if Enabled(w, e) then Apply(w, e) else w)
  {
    if Enabled(w, e) { ApplyInv(w, e); }
  }

  lemma {:induction false} RunInv(events: seq<Event>, j: nat)
    requires j <= |events|
    ensures Inv(Run(events, j))
  {
    if j > 0 {
      RunInv(events, j - 1);
      EventInv(Run(events, j - 1), events[j - 1]);
    }
  }

  /** `refs` names each live group that lists the policy, once, and beyond those only ones awaiting cleanup. */
  ghost predicate Indexes(groups: map<string, Group>, refs: seq<string>, n: string, g: string) {
    && multiset(refs)[g] <= 1
    && (g in groups && !groups[g].deleting && Lists(groups[g], n) ==> g in refs)
    && (g in refs ==> g in groups && Lists(groups[g], n) && (groups[g].deleting ==> groups[g].finalizer))
  }

  lemma ExactIndexes(w: World, n: string, g: string)
    requires Inv(w) && n in w.policies && Exact(w, n)
    ensures Sorted(w.policies[n].referencedBy) && Indexes(w.groups, w.policies[n].referencedBy, n, g)
  {
    var refs := w.policies[n].referencedBy;
    var keys := Elements(refs);
    ListingSorted(keys);
    ListingMultiset(keys);
    ListingContents(keys, g);
  }

  /** A policy created under a status that already names it has an empty entry, which is wrong exactly
      while some live group lists the policy; every other entry is exact. */
  lemma ExactIff(w: World, n: string)
    requires Inv(w) && n in w.policies
    ensures Exact(w, n) <==> (n in w.stale ==> Live(w.groups, n) == {})
  {
    if n in w.stale { EmptyEntry(w, n); }
  }

  /** Over every run the entry of a policy is sorted and indexes the groups exactly, unless the policy
      was created while some group's status named it, no such group has been reconciled since, and a
      live group still lists it: exactly then it is not. */
  lemma IndexExact(events: seq<Event>, n: string, g: string)
    requires n in Run(events).policies
    ensures
      var w := Run(events);
      && (Exact(w, n) <==> (n in w.stale ==> Live(w.groups, n) == {}))
      && (Exact(w, n) ==> Sorted(w.policies[n].referencedBy) && Indexes(w.groups, w.policies[n].referencedBy, n, g))
  {
    RunInv(events, |events|);
    ExactIff(Run(events), n);
    if Exact(Run(events), n) { ExactIndexes(Run(events), n, g); }
  }

  /** With no group awaiting cleanup the entry is the sorted list of the groups that list the policy,
      under the same condition. */
  lemma SettledIndex(events: seq<Event>, n: string)
    requires n in Run(events).policies
    requires forall g :: g in Run(events).groups ==> !Run(events).groups[g].deleting
    ensures
      var w := Run(events);
      w.policies[n].referencedBy == Listing(Live(w.groups, n)) <==> (n in w.stale ==> Live(w.groups, n) == {})
  {
    RunInv(events, |events|);
    SettledEntry(Run(events), n);
  }

  lemma SettledEntry(w: World, n: string)
    requires Inv(w) && n in w.policies && forall g :: g in w.groups ==> !w.groups[g].deleting
    ensures w.policies[n].referencedBy == Listing(Live(w.groups, n)) <==> (n in w.stale ==> Live(w.groups, n) == {})
  {
    ExactIff(w, n);
    ListingElements(Live(w.groups, n));
    assert Dying(w.groups, n) == {};
    assert Exact(w, n) ==> Elements(w.policies[n].referencedBy) == Live(w.groups, n);
  }

  /** A new policy's empty entry is right exactly when no live group's status already names it. */
  lemma NewPolicyExact(w: World, policy: Policy)
    requires Inv(w) && policy.name !in w.policies
    ensures Exact(Apply(w, CreatePolicy(policy)), policy.name) <==> Live(w.groups, policy.name) == {}
  {
    assert Listing({}) == [];
  }

  /** Reconciling a group settles every policy it resolved before or resolves now, stale or not. */
  lemma ReconcileSettles(w: World, name: string, listed: seq<Policy>, n: string)
    requires Inv(w) && name in w.groups && n in w.policies
    requires
      || Lists(w.groups[name], n)
      || (!w.groups[name].deleting && n in MemberNames(Members(w.groups[name].spec, listed)))
    ensures
      var w' := Reconcile(w, name, listed);
      n !in w'.stale && w'.policies[n].referencedBy == Listing(Live(w'.groups, n))
  {
    var w' := Reconcile(w, name, listed);
    if w.groups[name].deleting { assert Live(w'.groups, n) == Live(w.groups, n); }
  }

  /** A deleted group is in no entry that was exact once its cleanup has run. */
  lemma FinalizedIsForgotten(w: World, name: string, listed: seq<Policy>, n: string)
    requires Inv(w) && name in w.groups && w.groups[name].deleting
    requires n in w.policies && n !in Reconcile(w, name, listed).stale
    ensures name !in Reconcile(w, name, listed).policies[n].referencedBy
  {
    var w' := Reconcile(w, name, listed);
    var refs := w'.policies[n].referencedBy;
    ReconcileExact(w, name, listed, n);
    ListingContents(Elements(refs), name);
    assert name !in Live(w'.groups, n) + Dying(w'.groups, n);
  }

  // ---- a policy deleted and recreated ----

  /** A group resolves a policy; the policy is deleted and created again. */
  function Recreating(p: Policy, spec: PolicyGroupSpec): seq<Event> {
    [CreatePolicy(p), CreateGroup("g", spec), ReconcileGroup("g", [p]), DeletePolicy(p.name), CreatePolicy(p)]
  }

  lemma ResolvedListed(spec: PolicyGroupSpec, listed: seq<Policy>, n: string)
    requires spec.enabled && n in Resolved(spec, listed)
    ensures n in MemberNames(Members(spec, listed))
  {
    var m := Resolved(spec, listed);
    var members := Members(spec, listed);
    SortedValuesContents(m);
    assert m[n] in members;
    var i :| 0 <= i < |members| && members[i] == m[n];
    MemberNamesContents(members, |members|, n);
  }

  /** The group's status still lists the recreated policy, whose entry is empty. */
  lemma RecreatedIsStale(p: Policy, spec: PolicyGroupSpec)
    requires spec.enabled && p.name in Resolved(spec, [p])
    ensures
      var w := Run(Recreating(p, spec));
      && p.name in w.policies && w.policies[p.name].referencedBy == [] && Live(w.groups, p.name) == {"g"}
      && !Exact(w, p.name)
  {
    var es := Recreating(p, spec);
    ResolvedOnce(p, spec);
    var w3, w4, w5 := Run(es, 3), Run(es, 4), Run(es, 5);
    assert w4.groups == w3.groups && p.name !in w4.policies;
    assert Enabled(w4, es[4]) && w5 == Apply(w4, es[4]) && w5.groups == w3.groups;
    assert w5.policies[p.name].referencedBy == [];
    EmptyEntry(w5, p.name);
  }

  lemma ResolvedOnce(p: Policy, spec: PolicyGroupSpec)
    requires spec.enabled && p.name in Resolved(spec, [p])
    ensures
      var w := Run(Recreating(p, spec), 3);
      p.name in w.policies && Live(w.groups, p.name) == {"g"}
  {
    var w := Run(Recreating(p, spec), 2);
    Prepared(p, spec);
    ResolvedListed(spec, [p], p.name);
    var w' := Record(w, "g", Members(spec, [p]));
    assert w'.groups.Keys == {"g"} && "g" in Live(w'.groups, p.name);
    assert Run(Recreating(p, spec), 3) == Reconcile(w, "g", [p]) == w';
  }

  lemma Prepared(p: Policy, spec: PolicyGroupSpec)
    ensures
      var w := Run(Recreating(p, spec), 2);
      p.name in w.policies && w.groups == map["g" := Group(spec, false, false, [])]
  {
    var es := Recreating(p, spec);
    var w1, w2 := Run(es, 1), Run(es, 2);
    assert Run(es, 0) == EMPTY && w1 == Apply(EMPTY, es[0]) && w2 == Apply(w1, es[1]);
  }

  lemma EmptyEntry(w: World, n: string)
    requires n in w.policies && w.policies[n].referencedBy == []
    ensures Exact(w, n) <==> Live(w.groups, n) == {}
  {
    assert Listing({}) == [];
    assert Elements(w.policies[n].referencedBy) == {};
  }

  // ---- edits take effect ----

  /** A group's status lists exactly what its spec resolves to, and nothing while it is disabled. */
  lemma MembersExact(spec: PolicyGroupSpec, listed: seq<Policy>, n: string)
    ensures n in MemberNames(Members(spec, listed)) <==> spec.enabled && n in Resolved(spec, listed)
  {
    if spec.enabled && n in Resolved(spec, listed) { ResolvedListed(spec, listed, n); }
    var members := Members(spec, listed);
    MemberNamesContents(members, |members|, n);
    if spec.enabled && n in MemberNames(members) {
      var i :| 0 <= i < |members| && members[i].name == n;
      SortedValuesContents(Resolved(spec, listed));
      assert members[i] in members;
    }
  }

  /** Once an edited group is reconciled, its status and the entry of every policy say what its new spec
      resolves to. */
  lemma EditTakesEffect(w: World, name: string, spec: PolicyGroupSpec, listed: seq<Policy>, n: string)
    requires Inv(w) && name in w.groups && !w.groups[name].deleting && n in w.policies
    ensures
      var w' := Reconcile(Apply(w, EditGroup(name, spec)), name, listed);
      && name in w'.groups && w'.groups[name].spec == spec && w'.groups[name].resolved == Members(spec, listed)
      && n in w'.policies
      && (name in w'.policies[n].referencedBy <==> spec.enabled && n in Resolved(spec, listed))
  {
    var w1 := Apply(w, EditGroup(name, spec));
    var w' := Reconcile(w1, name, listed);
    ApplyInv(w, EditGroup(name, spec));
    ApplyInv(w1, ReconcileGroup(name, listed));
    MembersExact(spec, listed, n);
    if n !in w'.stale {
      ExactIndexes(w', n, name);
    }
  }

  /** Once a deleted group is reconciled, it is gone and in no entry. */
  lemma DeleteTakesEffect(w: World, name: string, listed: seq<Policy>, n: string)
    requires Inv(w) && name in w.groups && n in w.policies
    ensures
      var w' := Reconcile(Apply(w, DeleteGroup(name)), name, listed);
      name !in w'.groups && n in w'.policies && name !in w'.policies[n].referencedBy
  {
    var w1 := Apply(w, DeleteGroup(name));
    var w' := Reconcile(w1, name, listed);
    ApplyInv(w, DeleteGroup(name));
    ApplyInv(w1, ReconcileGroup(name, listed));
    if n !in w'.stale { ExactIndexes(w', n, name); }
  }

  /** An edited policy has its new form and keeps its entry. */
  lemma PolicyEditTakesEffect(w: World, policy: Policy)
    requires policy.name in w.policies
    ensures
      var w' := Apply(w, EditPolicy(policy));
      && w'.policies.Keys == w.policies.Keys && w'.groups == w.groups
      && w'.policies[policy.name].policy == policy && w'.policies[policy.name].referencedBy == w.policies[policy.name].referencedBy
  {
  }

  // ---- the reconciler ----

  method SnapshotResolved(members: seq<EffectiveMember>) returns (names: set<string>)
    ensures names == MemberNames(members)
  {
    names := {};
    for i := 0 to |members|
      invariant names == MemberNames(members, i)
    {
      names := names + {members[i].name};
    }
  }

  lemma {:induction false} MemberNamesContents(members: seq<EffectiveMember>, j: nat, n: string)
    requires j <= |members|
    ensures n in MemberNames(members, j) <==> exists i :: 0 <= i < j && members[i].name == n
  {
    if j > 0 { MemberNamesContents(members, j - 1, n); }
  }

  method HasMember(members: seq<EffectiveMember>, n: string) returns (found: bool)
    ensures found == (n in MemberNames(members))
  {
    MemberNamesContents(members, |members|, n);
    for i := 0 to |members|
      invariant forall k :: 0 <= k < i ==> members[k].name != n
    {
      if members[i].name == n { return true; }
    }
    return false;
  }

  class PolicyGroupReconciler {
    var groups: map<string, Group>
    var policies: map<string, PolicyRow>
    ghost var stale: set<string>

    ghost function State(): World
      reads this
    {
      World(groups, policies, stale)
    }

    constructor ()
      ensures State() == EMPTY
    {
      groups, policies, stale := map[], map[], {};
    }

    method CollectRefs(n: string) returns (refs: seq<string>)
      ensures refs == Listing(Live(groups, n))
    {
      var rest, live := groups.Keys, {};
      while rest != {}
        invariant rest <= groups.Keys
        invariant forall g :: g in live <==> g in groups && g !in rest && !groups[g].deleting && Lists(groups[g], n)
        decreases rest
      {
        var g := PickAny(rest);
        if !groups[g].deleting {
          var found := HasMember(groups[g].resolved, n);
          if found { live := live + {g}; }
        }
        rest := rest - {g};
      }
      assert live == Live(groups, n);
      refs := SortedKeys(live);
    }

    method RefreshReferencedBy(prev: set<string>, current: set<string>)
      modifies this
      ensures State() == Refresh(old(State()), prev + current)
    {
      var touch := prev + current;
      var rest := touch;
      while rest != {}
        invariant rest <= touch && groups == old(groups) && stale == old(stale)
        invariant policies == Refresh(old(State()), touch - rest).policies
        decreases rest
      {
        var n := PickAny(rest);
        if n in policies {
          var refs := CollectRefs(n);
          if policies[n].referencedBy != refs {
            policies := policies[n := policies[n].(referencedBy := refs)];
          }
        }
        assert touch - (rest - {n}) == (touch - rest) + {n};
        rest := rest - {n};
      }
      assert touch - rest == touch;
      stale := stale - touch;
    }

    method ReconcileStored(name: string, listed: seq<Policy>)
      modifies this
      ensures State() == Reconcile(old(State()), name, listed)
    {
      if name !in groups { return; }
      var g := groups[name];
      var prev := SnapshotResolved(g.resolved);
      if g.deleting {
        if !g.finalizer { return; }
        RefreshReferencedBy(prev, {});
        assert prev + {} == prev;
        groups := groups - {name};
        return;
      }
      var members := [];
      if g.spec.enabled {
        var conditions;
        members, conditions := Resolve(g.spec, listed);
      }
      groups := groups[name := g.(finalizer := true, resolved := members)];
      var current := SnapshotResolved(members);
      RefreshReferencedBy(prev, current);
    }
  }
}
