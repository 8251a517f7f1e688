/** The webhook's policy cache: which policies a request must pass, and in which mode.
    Go maps are ranged over in an arbitrary order; the result does not depend on it. */
module PolicyMatching {
  import opened Names
  import opened GroupResolve

  datatype MatchResource = MatchResource(apiGroups: seq<string>, resources: seq<string>)
  datatype PolicyMatch = PolicyMatch(resources: seq<MatchResource>, operations: seq<string>)
  datatype CompiledPolicy = CompiledPolicy(name: string, description: string, match_: PolicyMatch, referencedBy: seq<string>)
  datatype CompiledGroup = CompiledGroup(
    name: string,
    enabled: bool,
    namespaceSelector: Option<Labels -> bool>,
    members: map<string, string>)

  /** What is asked for; `None` labels mean the namespace could not be looked up. */
  datatype Query = Query(resource: string, apiGroup: string, operation: string, namespaceLabels: Option<Labels>)

  datatype Resolved = Resolved(policy: CompiledPolicy, mode: string, groups: seq<string>)

  predicate MatchesResource(r: MatchResource, resource: string, apiGroup: string) {
    && (resource in r.resources || "*" in r.resources)
    && (apiGroup in r.apiGroups || "*" in r.apiGroups)
  }

  predicate MatchesPolicy(m: PolicyMatch, q: Query) {
    && (q.operation in m.operations || "*" in m.operations)
    && exists i :: 0 <= i < |m.resources| && MatchesResource(m.resources[i], q.resource, q.apiGroup)
  }

  predicate GroupMatches(g: CompiledGroup, q: Query) {
    && g.enabled
    && (g.namespaceSelector.Some? ==> q.namespaceLabels.Some? && g.namespaceSelector.value(q.namespaceLabels.value))
  }

  function StrictestOf(a: string, b: string): string {
    if a == MODE_ENFORCE || b == MODE_ENFORCE then MODE_ENFORCE else MODE_AUDIT
  }

  type Policies = map<string, CompiledPolicy>
  type Groups = map<string, CompiledGroup>

  ghost predicate Keyed(policies: Policies, groups: Groups) {
    && (forall n :: n in policies ==> policies[n].name == n)
    && (forall g :: g in groups ==> groups[g].name == g)
  }

  /** The policy is cached and its own match rules admit the request. */
  predicate Applicable(policies: Policies, q: Query, n: string) {
    n in policies && MatchesPolicy(policies[n].match_, q)
  }

  function Matching(groups: Groups, q: Query): set<string> {
    set g | g in groups && GroupMatches(groups[g], q)
  }

  /** Those of the given groups that list the policy. */
  function Hits(groups: Groups, among: set<string>, n: string): set<string> {
    set g | g in among && g in groups && n in groups[g].members
  }

  ghost predicate AnyEnforce(groups: Groups, hits: set<string>, n: string) {
    exists g :: g in hits && g in groups && n in groups[g].members && groups[g].members[n] == MODE_ENFORCE
  }

  /** A policy hit by a single group keeps that group's mode as it is; one hit by several is
      enforced when any of them enforces it, and audited otherwise. */
  ghost function ModeFor(groups: Groups, hits: set<string>, n: string): string
    requires hits != {} && forall g :: g in hits ==> g in groups && n in groups[g].members
  {
    if |hits| == 1 then groups[AnyOf(hits)].members[n]
    else if AnyEnforce(groups, hits, n) then MODE_ENFORCE
    else MODE_AUDIT
  }

  lemma SingletonIs(s: set<string>, x: string)
    requires |s| == 1 && x in s
    ensures s == {x}
  {
    assert |s - {x}| == 0;
    assert s - {x} == {};
  }

  /** A policy is enforced exactly when one of its groups enforces it. */
  lemma ModeEnforces(groups: Groups, hits: set<string>, n: string)
    requires hits != {} && forall g :: g in hits ==> g in groups && n in groups[g].members
    ensures ModeFor(groups, hits, n) == MODE_ENFORCE <==> AnyEnforce(groups, hits, n)
  {
    if |hits| == 1 {
      SingletonIs(hits, AnyOf(hits));
    }
  }

  lemma ModeStep(groups: Groups, hits: set<string>, g: string, n: string)
    requires hits != {} && forall h :: h in hits + {g} ==> h in groups && n in groups[h].members
    requires g !in hits
    ensures ModeFor(groups, hits + {g}, n) == StrictestOf(ModeFor(groups, hits, n), groups[g].members[n])
  {
    ModeEnforces(groups, hits, n);
    assert |hits + {g}| == |hits| + 1 && |hits| > 0;
  }

  /** The names listed are the set's members, each once. */
  ghost predicate Enumerates(names: seq<string>, s: set<string>) {
    Elements(names) == s && |names| == |s|
  }

  lemma EnumeratesStep(names: seq<string>, s: set<string>, x: string)
    requires Enumerates(names, s) && x !in s
    ensures Enumerates(names + [x], s + {x})
  {
    ElementsPrefix(names, names + [x], |names|);
  }

  lemma {:induction false} ElementsPrefix(a: seq<string>, b: seq<string>, j: nat)
    requires j <= |a| && j <= |b| && a[..j] == b[..j]
    ensures Elements(a, j) == Elements(b, j)
  {
    if j > 0 {
      assert a[j - 1] == a[..j][j - 1] && b[j - 1] == b[..j][j - 1];
      assert a[..j - 1] == a[..j][..j - 1] && b[..j - 1] == b[..j][..j - 1];
      ElementsPrefix(a, b, j - 1);
    }
  }

  lemma {:induction false} ElementsFewer(s: seq<string>, j: nat)
    requires j <= |s|
    ensures |Elements(s, j)| <= j
  {
    if j > 0 { ElementsFewer(s, j - 1); }
  }

  lemma ElementsPush(s: seq<string>, x: string)
    ensures Elements(s + [x]) == Elements(s) + {x}
  {
    ElementsPrefix(s, s + [x], |s|);
  }

  /** An enumeration without its last name still is one. */
  lemma EnumeratesPop(names: seq<string>)
    requires names != [] && Enumerates(names, Elements(names))
    ensures
      var front, last := names[..|names| - 1], names[|names| - 1];
      last !in Elements(front) && Enumerates(front, Elements(front)) && Elements(names) == Elements(front) + {last}
  {
    var front, last := names[..|names| - 1], names[|names| - 1];
    assert names == front + [last];
    ElementsPush(front, last);
    ElementsFewer(front, |front|);
  }

  /** Those of the groups, in the order given, that list the policy. */
  function Among(groups: Groups, order: seq<string>, n: string): seq<string> {
    if order == [] then []
    else
      var front, last := order[..|order| - 1], order[|order| - 1];
      if last in groups && n in groups[last].members then Among(groups, front, n) + [last] else Among(groups, front, n)
  }

  lemma AmongPush(groups: Groups, order: seq<string>, g: string, n: string)
    ensures Among(groups, order + [g], n) ==
            if g in groups && n in groups[g].members then Among(groups, order, n) + [g] else Among(groups, order, n)
  {
    assert (order + [g])[..|order|] == order;
  }

  lemma {:induction false} AmongEnumerates(groups: Groups, order: seq<string>, n: string)
    requires Enumerates(order, Elements(order))
    ensures Enumerates(Among(groups, order, n), Hits(groups, Elements(order), n))
  {
    if order == [] {
      assert Hits(groups, {}, n) == {};
    } else {
      var front, last := order[..|order| - 1], order[|order| - 1];
      EnumeratesPop(order);
      AmongEnumerates(groups, front, n);
      HitsPush(groups, Elements(front), last, n);
      if last in groups && n in groups[last].members {
        EnumeratesStep(Among(groups, front, n), Hits(groups, Elements(front), n), last);
      }
    }
  }

  lemma HitsPush(groups: Groups, seen: set<string>, g: string, n: string)
    ensures Hits(groups, seen + {g}, n) ==
            if g in groups && n in groups[g].members then Hits(groups, seen, n) + {g} else Hits(groups, seen, n)
  {
  }

  datatype Accum = Accum(mode: string, groups: seq<string>)

  /** What step 2 has gathered for `n` once it has seen the groups, in this order. */
  ghost predicate Gathered(policies: Policies, groups: Groups, q: Query, order: seq<string>, acc: Option<Accum>, n: string) {
    var hits := Hits(groups, Elements(order), n);
    if Applicable(policies, q, n) && hits != {} then
      acc.Some? && acc.value.mode == ModeFor(groups, hits, n) && acc.value.groups == Among(groups, order, n)
    else acc.None?
  }

  function Gather(acc: Option<Accum>, mode: string, group: string): Accum {
    if acc.None? then Accum(mode, [group])
    else Accum(StrictestOf(acc.value.mode, mode), acc.value.groups + [group])
  }

  lemma {:induction false} AmongNone(groups: Groups, order: seq<string>, n: string)
    requires Hits(groups, Elements(order), n) == {}
    ensures Among(groups, order, n) == []
  {
    if order != [] {
      var front, last := order[..|order| - 1], order[|order| - 1];
      assert order == front + [last];
      ElementsPush(front, last);
      assert last !in Hits(groups, Elements(order), n);
      HitsPush(groups, Elements(front), last, n);
      AmongNone(groups, front, n);
    }
  }

  lemma ModeOfOne(groups: Groups, g: string, n: string)
    requires g in groups && n in groups[g].members
    ensures ModeFor(groups, {g}, n) == groups[g].members[n]
  {
    SingletonIs({g}, AnyOf({g}));
  }

  /** One group more that lists the policy. */
  lemma ListingGroup(groups: Groups, order: seq<string>, g: string, n: string)
    requires g in groups && g !in Elements(order) && n in groups[g].members
    ensures Hits(groups, Elements(order + [g]), n) == Hits(groups, Elements(order), n) + {g}
    ensures Among(groups, order + [g], n) == Among(groups, order, n) + [g]
    ensures Hits(groups, Elements(order), n) == {} ==> Among(groups, order, n) == []
  {
    ElementsPush(order, g);
    HitsPush(groups, Elements(order), g, n);
    AmongPush(groups, order, g, n);
    if Hits(groups, Elements(order), n) == {} { AmongNone(groups, order, n); }
  }

  lemma ModeMore(groups: Groups, order: seq<string>, g: string, n: string)
    requires g in groups && g !in Elements(order) && n in groups[g].members
    ensures
      var hits, mode := Hits(groups, Elements(order), n), groups[g].members[n];
      ModeFor(groups, hits + {g}, n) == if hits == {} then mode else StrictestOf(ModeFor(groups, hits, n), mode)
  {
    var hits := Hits(groups, Elements(order), n);
    if hits == {} {
      assert hits + {g} == {g};
      ModeOfOne(groups, g, n);
    } else {
      ModeStep(groups, hits, g, n);
    }
  }

  lemma GatherStep(policies: Policies, groups: Groups, q: Query, order: seq<string>, acc: Option<Accum>, g: string, n: string)
    requires Gathered(policies, groups, q, order, acc, n)
    requires g in groups && g !in Elements(order) && n in groups[g].members
    ensures Gathered(policies, groups, q, order + [g],
                     if Applicable(policies, q, n) then Some(Gather(acc, groups[g].members[n], g)) else acc, n)
  {
    ListingGroup(groups, order, g, n);
    ModeMore(groups, order, g, n);
  }

  lemma GatherSkip(policies: Policies, groups: Groups, q: Query, order: seq<string>, acc: Option<Accum>, g: string, n: string)
    requires Gathered(policies, groups, q, order, acc, n)
    requires g in groups && n !in groups[g].members
    ensures Gathered(policies, groups, q, order + [g], acc, n)
  {
    ElementsPush(order, g);
    HitsPush(groups, Elements(order), g, n);
    AmongPush(groups, order, g, n);
  }

  /** In the middle of group `g`: the members still in `rest` have not been gathered from it. */
  ghost predicate Halfway(policies: Policies, groups: Groups, q: Query, order: seq<string>, g: string, rest: set<string>,
                          acc: Option<Accum>, n: string)
    requires g in groups
  {
    Gathered(policies, groups, q, if n in groups[g].members && n !in rest then order + [g] else order, acc, n)
  }

  lemma HalfwayStep(policies: Policies, groups: Groups, q: Query, order: seq<string>, g: string, rest: set<string>,
                    acc: Option<Accum>, n: string)
    requires g in groups && g !in Elements(order) && n in rest && n in groups[g].members
    requires Halfway(policies, groups, q, order, g, rest, acc, n)
    ensures Halfway(policies, groups, q, order, g, rest - {n},
                    if Applicable(policies, q, n) then Some(Gather(acc, groups[g].members[n], g)) else acc, n)
  {
    GatherStep(policies, groups, q, order, acc, g, n);
  }

  lemma HalfwayOther(policies: Policies, groups: Groups, q: Query, order: seq<string>, g: string, rest: set<string>,
                     acc: Option<Accum>, n: string, m: string)
    requires g in groups && m != n && Halfway(policies, groups, q, order, g, rest, acc, m)
    ensures Halfway(policies, groups, q, order, g, rest - {n}, acc, m)
  {
  }

  function GroupNames(hits: seq<CompiledGroup>, j: nat := |hits|): set<string>
    requires j <= |hits|
  {
    if j == 0 then {} else GroupNames(hits, j - 1) + {hits[j - 1].name}
  }

  lemma {:induction false} GroupNamesContents(hits: seq<CompiledGroup>, g: string, j: nat)
    requires j <= |hits|
    ensures g in GroupNames(hits, j) <==> exists k :: 0 <= k < j && hits[k].name == g
  {
    if j > 0 { GroupNamesContents(hits, g, j - 1); }
  }

  class PolicyCache {
    var policies: Policies
    var groups: Groups

    ghost predicate Valid()
      reads this
    {
      Keyed(policies, groups)
    }

    constructor ()
      ensures Valid() && policies == map[] && groups == map[]
    {
      policies, groups := map[], map[];
    }

    /** Step 1: the matching groups, in whatever order the map yields them. */
    method MatchingGroups(q: Query) returns (hits: seq<CompiledGroup>)
      requires Valid()
      ensures forall i :: 0 <= i < |hits| ==> hits[i].name in Matching(groups, q) && hits[i] == groups[hits[i].name]
      ensures forall i, j :: 0 <= i < j < |hits| ==> hits[i].name != hits[j].name
      ensures forall g :: g in Matching(groups, q) ==> groups[g] in hits
    {
      hits := [];
      var rest := groups.Keys;
      while rest != {}
        invariant rest <= groups.Keys
        invariant forall i :: 0 <= i < |hits| ==>
          hits[i].name in Matching(groups, q) && hits[i] == groups[hits[i].name] && hits[i].name !in rest
        invariant forall i, j :: 0 <= i < j < |hits| ==> hits[i].name != hits[j].name
        invariant forall g :: g in Matching(groups, q) && g !in rest ==> groups[g] in hits
        decreases rest
      {
        var g := PickAny(rest);
        if GroupMatches(groups[g], q) {
          hits := hits + [groups[g]];
        }
        rest := rest - {g};
      }
    }

    /** Step 2 for one group: its members, in whatever order the map yields them. */
    method AddGroup(before: map<string, Accum>, g: string, q: Query, ghost order: seq<string>) returns (byPolicy: map<string, Accum>)
      requires Valid() && g in groups && g !in Elements(order)
      requires forall n :: Gathered(policies, groups, q, order, Get(before, n), n)
      ensures forall n :: Gathered(policies, groups, q, order + [g], Get(byPolicy, n), n)
    {
      byPolicy := before;
      var members := groups[g].members;
      var rest := members.Keys;
      while rest != {}
        invariant rest <= members.Keys
        invariant forall n :: Halfway(policies, groups, q, order, g, rest, Get(byPolicy, n), n)
        decreases rest
      {
        var n := PickAny(rest);
        ghost var was := byPolicy;
        HalfwayStep(policies, groups, q, order, g, rest, Get(byPolicy, n), n);
        if Applicable(policies, q, n) {
          byPolicy := byPolicy[n := Gather(Get(byPolicy, n), members[n], g)];
        }
        forall m ensures Halfway(policies, groups, q, order, g, rest - {n}, Get(byPolicy, m), m) {
          if m != n {
            assert Get(byPolicy, m) == Get(was, m);
            HalfwayOther(policies, groups, q, order, g, rest, Get(was, m), n, m);
          }
        }
        rest := rest - {n};
      }
      forall n ensures Gathered(policies, groups, q, order + [g], Get(byPolicy, n), n) {
        assert Halfway(policies, groups, q, order, g, rest, Get(byPolicy, n), n);
        if n !in members { GatherSkip(policies, groups, q, order, Get(byPolicy, n), g, n); }
      }
    }

    method SetPolicy(p: CompiledPolicy)
      requires Valid()
      modifies this`policies
      ensures Valid() && policies == old(policies)[p.name := p]
    {
      policies := policies[p.name := p];
    }

    method SetGroup(g: CompiledGroup)
      requires Valid()
      modifies this`groups
      ensures Valid() && groups == old(groups)[g.name := g]
    {
      groups := groups[g.name := g];
    }

    method DeletePolicy(name: string)
      requires Valid()
      modifies this`policies
      ensures Valid() && policies == old(policies) - {name}
    {
      policies := policies - {name};
    }

    method DeleteGroup(name: string)
      requires Valid()
      modifies this`groups
      ensures Valid() && groups == old(groups) - {name}
    {
      groups := groups - {name};
    }

    /** Step 2: what every matching group contributes, in the order the groups were found. */
    method GatherAll(hits: seq<CompiledGroup>, q: Query) returns (byPolicy: map<string, Accum>, ghost order: seq<string>)
      requires Valid()
      requires forall i :: 0 <= i < |hits| ==> hits[i].name in Matching(groups, q) && hits[i] == groups[hits[i].name]
      requires forall i, j :: 0 <= i < j < |hits| ==> hits[i].name != hits[j].name
      requires forall g :: g in Matching(groups, q) ==> groups[g] in hits
      ensures Enumerates(order, Matching(groups, q))
      ensures forall n :: Gathered(policies, groups, q, order, Get(byPolicy, n), n)
    {
      byPolicy, order := map[], [];
      for i := 0 to |hits|
        invariant Enumerates(order, GroupNames(hits, i))
        invariant forall n :: Gathered(policies, groups, q, order, Get(byPolicy, n), n)
      {
        GroupNamesContents(hits, hits[i].name, i);
        byPolicy := AddGroup(byPolicy, hits[i].name, q, order);
        EnumeratesStep(order, GroupNames(hits, i), hits[i].name);
        order := order + [hits[i].name];
      }
      forall g ensures g in GroupNames(hits) <==> g in Matching(groups, q) { GroupNamesContents(hits, g, |hits|); }
    }

    /** Step 3: one result per gathered policy, in whatever order the map yields them. */
    method Emit(byPolicy: map<string, Accum>) returns (out: seq<Resolved>)
      requires Valid() && byPolicy.Keys <= policies.Keys
      ensures forall i :: 0 <= i < |out| ==> out[i].policy.name in byPolicy && out[i] == Emitted(policies, byPolicy, out[i].policy.name)
      ensures Unrepeated(out)
      ensures forall n :: n in byPolicy ==> Present(out, n)
    {
      out := [];
      var rest := byPolicy.Keys;
      while rest != {}
        invariant rest <= byPolicy.Keys
        invariant forall i :: 0 <= i < |out| ==> out[i].policy.name in byPolicy.Keys - rest
        invariant forall i :: 0 <= i < |out| ==> out[i] == Emitted(policies, byPolicy, out[i].policy.name)
        invariant Unrepeated(out)
        invariant forall n :: n in byPolicy && n !in rest ==> Present(out, n)
        decreases rest
      {
        var n := PickAny(rest);
        ghost var before := out;
        out := out + [Emitted(policies, byPolicy, n)];
        assert out[|before|].policy.name == n;
        PresentKept(before, out);
        rest := rest - {n};
      }
    }

    /** `MatchingForRequest`. */
    method MatchingForRequest(q: Query) returns (out: seq<Resolved>)
      requires Valid()
      ensures Faithful(policies, groups, q, out)
      ensures forall n :: Present(out, n) <==> Demanded(policies, groups, q, n)
      ensures forall i :: 0 <= i < |out| ==> AsListed(groups, q, out[i])
    {
      var hits := MatchingGroups(q);
      var byPolicy;
      ghost var order;
      byPolicy, order := GatherAll(hits, q);
      assert byPolicy.Keys <= policies.Keys by {
        forall n | n in byPolicy ensures n in policies { GatheredRight(policies, groups, q, order, byPolicy, n); }
      }
      out := Emit(byPolicy);
      forall i | 0 <= i < |out| ensures Right(policies, groups, q, out[i]) && NamedInOrder(groups, order, out[i]) {
        GatheredRight(policies, groups, q, order, byPolicy, out[i].policy.name);
      }
      forall n | Selected(policies, groups, q, n) ensures Present(out, n) {
        assert Gathered(policies, groups, q, order, Get(byPolicy, n), n);
      }
      assert Ordered(groups, q, order, out);
      forall n ensures Present(out, n) <==> Demanded(policies, groups, q, n) { SelectedExactly(policies, groups, q, n); }
      forall i | 0 <= i < |out| ensures AsListed(groups, q, out[i]) { RightAsListed(policies, groups, q, out[i]); }
    }
  }

  function Emitted(policies: Policies, byPolicy: map<string, Accum>, n: string): Resolved
    requires n in byPolicy && n in policies
  {
    Resolved(policies[n], byPolicy[n].mode, byPolicy[n].groups)
  }

  lemma GatheredRight(policies: Policies, groups: Groups, q: Query, order: seq<string>, byPolicy: map<string, Accum>, n: string)
    requires Keyed(policies, groups) && n in byPolicy && Enumerates(order, Matching(groups, q))
    requires Gathered(policies, groups, q, order, Get(byPolicy, n), n)
    ensures n in policies && Right(policies, groups, q, Emitted(policies, byPolicy, n))
    ensures NamedInOrder(groups, order, Emitted(policies, byPolicy, n))
  {
    AmongEnumerates(groups, order, n);
  }

  /** Some matching group lists the policy, and its own rules admit the request. */
  predicate Selected(policies: Policies, groups: Groups, q: Query, n: string) {
    Applicable(policies, q, n) && Hits(groups, Matching(groups, q), n) != {}
  }

  ghost predicate Right(policies: Policies, groups: Groups, q: Query, r: Resolved) {
    var n := r.policy.name;
    var hits := Hits(groups, Matching(groups, q), n);
    && Selected(policies, groups, q, n)
    && r.policy == policies[n]
    && r.mode == ModeFor(groups, hits, n)
    && Enumerates(r.groups, hits)
  }

  predicate NamedInOrder(groups: Groups, order: seq<string>, r: Resolved) {
    r.groups == Among(groups, order, r.policy.name)
  }

  /** One order of the matching groups is the order in which every result names its own. */
  ghost predicate Ordered(groups: Groups, q: Query, order: seq<string>, out: seq<Resolved>) {
    Enumerates(order, Matching(groups, q)) && forall i :: 0 <= i < |out| ==> NamedInOrder(groups, order, out[i])
  }

  ghost predicate Unrepeated(out: seq<Resolved>) {
    forall i, j :: 0 <= i < j < |out| ==> out[i].policy.name != out[j].policy.name
  }

  ghost predicate Present(out: seq<Resolved>, n: string) {
    exists i :: 0 <= i < |out| && out[i].policy.name == n
  }

  lemma PresentKept(a: seq<Resolved>, b: seq<Resolved>)
    requires a <= b
    ensures forall n :: Present(a, n) ==> Present(b, n)
  {
    forall n | Present(a, n) ensures Present(b, n) {
      var i :| 0 <= i < |a| && a[i].policy.name == n;
      assert b[i].policy.name == n;
    }
  }

  /** Exactly the selected policies, each once, with its mode and the groups that hit it, named in one
      order of the matching groups. */
  ghost predicate Faithful(policies: Policies, groups: Groups, q: Query, out: seq<Resolved>) {
    && (forall i :: 0 <= i < |out| ==> Right(policies, groups, q, out[i]))
    && Unrepeated(out)
    && (forall n :: Selected(policies, groups, q, n) ==> Present(out, n))
    && (exists order :: Ordered(groups, q, order, out))
  }

  // ---- matching read off the caches ----

  /** The rules list the operation or "*", and one resource rule lists the resource or "*" and the API
      group or "*". */
  ghost predicate Admits(m: PolicyMatch, q: Query) {
    && (q.operation in m.operations || "*" in m.operations)
    && exists r :: r in m.resources && (q.resource in r.resources || "*" in r.resources) && (q.apiGroup in r.apiGroups || "*" in r.apiGroups)
  }

  /** An enabled group lists the policy, and its selector is absent or matches the known labels. */
  predicate HitBy(groups: Groups, q: Query, g: string, n: string) {
    && g in groups && n in groups[g].members && groups[g].enabled
    && (groups[g].namespaceSelector.None? ||
        (q.namespaceLabels.Some? && groups[g].namespaceSelector.value(q.namespaceLabels.value)))
  }

  /** The policy is cached, its rules admit the request, and some group hits it. */
  ghost predicate Demanded(policies: Policies, groups: Groups, q: Query, n: string) {
    && n in policies && Admits(policies[n].match_, q)
    && exists g :: HitBy(groups, q, g, n)
  }

  lemma AdmitsExactly(m: PolicyMatch, q: Query)
    ensures MatchesPolicy(m, q) <==> Admits(m, q)
  {
    if i :| 0 <= i < |m.resources| && MatchesResource(m.resources[i], q.resource, q.apiGroup) {
      assert m.resources[i] in m.resources;
    }
    if Admits(m, q) {
      var r :| r in m.resources && (q.resource in r.resources || "*" in r.resources) && (q.apiGroup in r.apiGroups || "*" in r.apiGroups);
      var i :| 0 <= i < |m.resources| && m.resources[i] == r;
      assert MatchesResource(m.resources[i], q.resource, q.apiGroup);
    }
  }

  lemma HitExactly(groups: Groups, q: Query, g: string, n: string)
    ensures g in Hits(groups, Matching(groups, q), n) <==> HitBy(groups, q, g, n)
  {
  }

  /** A policy is selected exactly when the caches, as they stand, demand it. */
  lemma SelectedExactly(policies: Policies, groups: Groups, q: Query, n: string)
    ensures Selected(policies, groups, q, n) <==> Demanded(policies, groups, q, n)
  {
    if n in policies { AdmitsExactly(policies[n].match_, q); }
    var hits := Hits(groups, Matching(groups, q), n);
    if hits != {} { HitExactly(groups, q, AnyOf(hits), n); }
    if g :| HitBy(groups, q, g, n) { HitExactly(groups, q, g, n); }
  }

  ghost predicate EnforcedBySome(groups: Groups, q: Query, n: string) {
    exists g :: HitBy(groups, q, g, n) && groups[g].members[n] == "enforce"
  }

  /** The result names exactly the groups that hit its policy. It is enforced iff one of them enforces
      it; otherwise one group's mode stands as it is, and several give audit. */
  ghost predicate AsListed(groups: Groups, q: Query, r: Resolved) {
    var n := r.policy.name;
    && (forall g :: g in r.groups <==> HitBy(groups, q, g, n))
    && (EnforcedBySome(groups, q, n) ==> r.mode == "enforce")
    && (!EnforcedBySome(groups, q, n) && |r.groups| == 1 ==> r.groups[0] in groups && n in groups[r.groups[0]].members && r.mode == groups[r.groups[0]].members[n])
    && (!EnforcedBySome(groups, q, n) && |r.groups| != 1 ==> r.mode == "audit")
  }

  lemma RightAsListed(policies: Policies, groups: Groups, q: Query, r: Resolved)
    requires Right(policies, groups, q, r)
    ensures AsListed(groups, q, r)
  {
    var n := r.policy.name;
    var hits := Hits(groups, Matching(groups, q), n);
    ElementsContents(r.groups, |r.groups|);
    forall g ensures g in r.groups <==> HitBy(groups, q, g, n) {
      HitExactly(groups, q, g, n);
      assert g in r.groups <==> g in Elements(r.groups);
    }
    ModeEnforces(groups, hits, n);
    EnforcedExactly(groups, q, n);
    if |r.groups| == 1 {
      assert r.groups[0] in r.groups;
      SingletonIs(hits, r.groups[0]);
      SingletonIs(hits, AnyOf(hits));
      assert r.groups[0] in {AnyOf(hits)};
    }
  }

  lemma EnforcedExactly(groups: Groups, q: Query, n: string)
    ensures AnyEnforce(groups, Hits(groups, Matching(groups, q), n), n) <==> EnforcedBySome(groups, q, n)
  {
    var hits := Hits(groups, Matching(groups, q), n);
    if g :| g in hits && g in groups && n in groups[g].members && groups[g].members[n] == MODE_ENFORCE { HitExactly(groups, q, g, n); }
    if g :| HitBy(groups, q, g, n) && groups[g].members[n] == "enforce" { HitExactly(groups, q, g, n); }
  }
}
