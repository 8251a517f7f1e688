/** What a rendered snapshot means: exact modes, monotonicity, and preservation of meaning on the
    member. */
module RenderTheorems {
  import opened Names
  import opened GroupResolve
  import opened Render

  // ---- exact modes ----

  function Rank(mode: string): nat {
    if mode == MODE_ENFORCE then 2 else if mode == "" then 0 else 1
  }

  /** The rendered mode ranks as high as the strictest contribution, and no higher. */
  lemma {:induction false} ModeIsStrictest(a: Modes, c: Cluster, ds: seq<Distribution>, g: string, p: string, j: nat)
    requires j <= |ds|
    ensures forall i :: 0 <= i < j && Contribution(a, c, ds[i], g, p).Some? ==>
              && RenderedMode(a, c, ds, g, p, j).Some?
              && Rank(Contribution(a, c, ds[i], g, p).value) <= Rank(RenderedMode(a, c, ds, g, p, j).value)
    ensures RenderedMode(a, c, ds, g, p, j).Some? ==>
              exists i :: 0 <= i < j && Contribution(a, c, ds[i], g, p) == RenderedMode(a, c, ds, g, p, j)
  {
    if j > 0 {
      ModeIsStrictest(a, c, ds, g, p, j - 1);
      var before, last := RenderedMode(a, c, ds, g, p, j - 1), Contribution(a, c, ds[j - 1], g, p);
      var now := RenderedMode(a, c, ds, g, p, j);
      if before.Some? && now == before {
        var i :| 0 <= i < j - 1 && Contribution(a, c, ds[i], g, p) == before;
      } else {
        assert now == last;
      }
    }
  }

  /** enforce is rendered iff some live matching distribution listing the enabled group asks for it. */
  lemma EnforceExact(t: Tables, c: Cluster, ds: seq<Distribution>, g: string, p: string)
    ensures
      var a := ResolveGroups(t);
      RenderedMode(a, c, ds, g, p) == Some(MODE_ENFORCE) <==>
      exists d :: d in ds && Contribution(a, c, d, g, p) == Some(MODE_ENFORCE)
  {
    var a := ResolveGroups(t);
    ModeIsStrictest(a, c, ds, g, p, |ds|);
    if d :| d in ds && Contribution(a, c, d, g, p) == Some(MODE_ENFORCE) {
      var i :| 0 <= i < |ds| && ds[i] == d;
      assert Rank(Contribution(a, c, ds[i], g, p).value) == 2;
    }
  }

  /** A contribution read off the tables: the cluster's last override, else the resolved mode. */
  lemma ContributionExact(t: Tables, c: Cluster, d: Distribution, g: string, p: string, mode: string)
    ensures Contribution(ResolveGroups(t), c, d, g, p) == Some(mode) <==>
      && !d.spec.deleted
      && DistMatches(d, c).Hit?
      && g in d.spec.policyGroups
      && Lookup(t.groups, g).Some?
      && Lookup(t.groups, g).value.spec.enabled
      && var m := Effective(Lookup(t.groups, g).value.spec, t.policies, p);
         var override := LastOverride(d.spec.overrides, c.name);
         m.Some? && mode == if override != "" then override else m.value.enforcementMode
  {
    ElementsContents(d.spec.policyGroups, |d.spec.policyGroups|);
  }

  // ---- which objects appear ----

  lemma {:induction false} RendersContents(a: Modes, c: Cluster, ds: seq<Distribution>, g: string, j: nat)
    requires j <= |ds|
    ensures RendersGroup(a, c, ds, g, j) <==> exists i :: 0 <= i < j && Lists(a, c, ds[i], g)
  {
    if j > 0 { RendersContents(a, c, ds, g, j - 1); }
  }

  lemma {:induction false} MembersContents(a: Modes, d: Distribution, p: string, j: nat)
    requires j <= |d.spec.policyGroups|
    ensures p in Members(a, d, j) <==> exists g :: g in a && g in Elements(d.spec.policyGroups, j) && p in a[g]
  {
    if j > 0 {
      MembersContents(a, d, p, j - 1);
      var last := d.spec.policyGroups[j - 1];
      if g :| g in a && g in Elements(d.spec.policyGroups, j) && p in a[g] {
        assert g == last || g in Elements(d.spec.policyGroups, j - 1);
      }
    }
  }

  lemma {:induction false} NeededContents(a: Modes, c: Cluster, ds: seq<Distribution>, p: string, j: nat)
    requires j <= |ds|
    ensures p in NeededPolicies(a, c, ds, j) <==> exists i :: 0 <= i < j && Active(ds[i], c) && p in Members(a, ds[i])
  {
    if j > 0 { NeededContents(a, c, ds, p, j - 1); }
  }

  lemma {:induction false} NeededExceptionContents(c: Cluster, ds: seq<Distribution>, e: string, j: nat)
    requires j <= |ds|
    ensures e in NeededExceptions(c, ds, j) <==>
      exists i :: 0 <= i < j && Active(ds[i], c) && e in Elements(ds[i].spec.policyExceptions)
  {
    if j > 0 { NeededExceptionContents(c, ds, e, j - 1); }
  }

  /** A policy is shipped iff some rendered group has it as a member. */
  lemma NeededIffRendered(a: Modes, c: Cluster, ds: seq<Distribution>, p: string)
    ensures p in NeededPolicies(a, c, ds) <==> exists g :: RenderedMode(a, c, ds, g, p).Some?
  {
    NeededContents(a, c, ds, p, |ds|);
    if p in NeededPolicies(a, c, ds) {
      var i :| 0 <= i < |ds| && Active(ds[i], c) && p in Members(a, ds[i]);
      MembersContents(a, ds[i], p, |ds[i].spec.policyGroups|);
      var g :| g in a && g in Elements(ds[i].spec.policyGroups) && p in a[g];
      ModeIsStrictest(a, c, ds, g, p, |ds|);
      assert Contribution(a, c, ds[i], g, p).Some?;
    }
    if g :| RenderedMode(a, c, ds, g, p).Some? {
      ModeIsStrictest(a, c, ds, g, p, |ds|);
      var i :| 0 <= i < |ds| && Contribution(a, c, ds[i], g, p).Some?;
      MembersContents(a, ds[i], p, |ds[i].spec.policyGroups|);
    }
  }

  lemma InSortedValues(m: map<string, ManagedObject>, o: ManagedObject)
    requires forall n :: n in m ==> m[n].name == n
    ensures o in SortedValues(m) <==> Get(m, o.name) == Some(o)
  {
    SortedValuesContents(m);
  }

  /** The three parts of a snapshot, keyed by name. */
  ghost function PolicyPart(t: Tables, c: Cluster, ds: seq<Distribution>): (m: map<string, ManagedObject>)
    ensures forall n :: n in m ==> m[n].PolicyObject? && m[n].name == n
  {
    PolicyObjects(Chosen(t.policies, NeededPolicies(ResolveGroups(t), c, ds)))
  }

  ghost function GroupPart(t: Tables, c: Cluster, ds: seq<Distribution>): (m: map<string, ManagedObject>)
    ensures forall n :: n in m ==> m[n].GroupObject? && m[n].name == n
  {
    GroupObjects(Chosen(t.groups, ObjectNames(t.groups)), AllModes(ResolveGroups(t), c, ds))
  }

  ghost function ExceptionPart(t: Tables, c: Cluster, ds: seq<Distribution>): (m: map<string, ManagedObject>)
    ensures forall n :: n in m ==> m[n].ExceptionObject? && m[n].name == n
  {
    ExceptionObjects(Chosen(t.exceptions, NeededExceptions(c, ds)))
  }

  lemma ObjectKinds(t: Tables, c: Cluster, ds: seq<Distribution>, o: ManagedObject)
    ensures o.PolicyObject? ==> (o in Objects(t, c, ds) <==> Get(PolicyPart(t, c, ds), o.name) == Some(o))
    ensures o.GroupObject? ==> (o in Objects(t, c, ds) <==> Get(GroupPart(t, c, ds), o.name) == Some(o))
    ensures o.ExceptionObject? ==> (o in Objects(t, c, ds) <==> Get(ExceptionPart(t, c, ds), o.name) == Some(o))
  {
    var p, g, e := PolicyPart(t, c, ds), GroupPart(t, c, ds), ExceptionPart(t, c, ds);
    InSortedValues(p, o);
    InSortedValues(g, o);
    InSortedValues(e, o);
    assert Objects(t, c, ds) == SortedValues(p) + SortedValues(g) + SortedValues(e);
  }

  /** The object a rendered group becomes: its source with a byName entry per rendered mode. */
  ghost function GroupObjectFor(t: Tables, c: Cluster, ds: seq<Distribution>, g: string): ManagedObject
    requires g in ResolveGroups(t)
  {
    var source := Lookup(t.groups, g).value;
    GroupObject(g, WithManaged(source.labels), Flattened(source.spec, Refs(GroupModes(ResolveGroups(t), c, ds, g))))
  }

  lemma GroupObjectIs(t: Tables, c: Cluster, ds: seq<Distribution>, o: ManagedObject)
    requires o in Objects(t, c, ds) && o.GroupObject?
    ensures o.name in ResolveGroups(t) && RendersGroup(ResolveGroups(t), c, ds, o.name)
    ensures o == GroupObjectFor(t, c, ds, o.name)
  {
    ObjectKinds(t, c, ds, o);
  }

  lemma GroupObjectAppears(t: Tables, c: Cluster, ds: seq<Distribution>, g: string)
    requires g in ResolveGroups(t) && RendersGroup(ResolveGroups(t), c, ds, g)
    ensures GroupObjectFor(t, c, ds, g) in Objects(t, c, ds)
  {
    var o := GroupObjectFor(t, c, ds, g);
    GroupPartAt(t, c, ds, g);
    ObjectKinds(t, c, ds, o);
  }

  lemma GroupPartAt(t: Tables, c: Cluster, ds: seq<Distribution>, g: string)
    requires g in ResolveGroups(t) && RendersGroup(ResolveGroups(t), c, ds, g)
    ensures Get(GroupPart(t, c, ds), g) == Some(GroupObjectFor(t, c, ds, g))
  {
  }

  lemma PolicyObjectIs(t: Tables, c: Cluster, ds: seq<Distribution>, p: string)
    requires p in NeededPolicies(ResolveGroups(t), c, ds) && p in ObjectNames(t.policies)
    ensures
      var pol := Lookup(t.policies, p).value;
      PolicyObject(p, WithManaged(pol.labels), pol.spec) in Objects(t, c, ds)
  {
    var pol := Lookup(t.policies, p).value;
    ObjectKinds(t, c, ds, PolicyObject(p, WithManaged(pol.labels), pol.spec));
  }

  // ---- rendering preserves meaning ----

  /** The flattened byName list is a lookup table for the modes. */
  lemma RefsLookup(modes: map<string, string>, p: string)
    ensures LastRef(Refs(modes), p) == if p in modes then Some(PolicyRef(p, modes[p])) else None
  {
    var table := map n | n in modes :: PolicyRef(n, modes[n]);
    SortedValuesContents(table);
    LastRefContents(Refs(modes), p, |Refs(modes)|);
    if p in modes {
      assert table[p] in Refs(modes);
    }
  }

  lemma RefsContents(modes: map<string, string>, ref: PolicyRef)
    requires ref in Refs(modes)
    ensures ref.name in modes && ref.enforcementMode == modes[ref.name]
  {
    SortedValuesContents(map n | n in modes :: PolicyRef(n, modes[n]));
  }

  /** An unset rendered mode comes only from a policy whose own mode is unset. */
  lemma UnsetMode(t: Tables, c: Cluster, ds: seq<Distribution>, g: string, p: string)
    requires UniqueNames(t.policies)
    requires RenderedMode(ResolveGroups(t), c, ds, g, p) == Some("")
    ensures p in ObjectNames(t.policies) && Lookup(t.policies, p).value.spec.enforcementMode == ""
  {
    var a := ResolveGroups(t);
    ModeIsStrictest(a, c, ds, g, p, |ds|);
    var i :| 0 <= i < |ds| && Contribution(a, c, ds[i], g, p) == Some("");
    ContributionExact(t, c, ds[i], g, p, "");
    var spec := Lookup(t.groups, g).value.spec;
    assert Effective(spec, t.policies, p).value.enforcementMode == "";
    if NamedMember(spec.policies.byName, t.policies, p).None? {
      var picked := FirstMatch(t.policies, spec.policies.bySelector.value.matches, p).value;
      assert picked == Lookup(t.policies, p).value;
    }
  }

  /** The member's policies include the snapshot's: each name denotes the shipped spec. */
  ghost predicate Holds(local: seq<Policy>, objects: seq<ManagedObject>) {
    forall o :: o in objects && o.PolicyObject? ==>
      Lookup(local, o.name).Some? && Lookup(local, o.name).value.spec == o.policy
  }

  lemma MemberHasPolicy(t: Tables, c: Cluster, ds: seq<Distribution>, local: seq<Policy>, g: string, p: string)
    requires Holds(local, Objects(t, c, ds))
    requires RenderedMode(ResolveGroups(t), c, ds, g, p).Some?
    ensures Lookup(local, p).Some? && Lookup(t.policies, p).Some?
    ensures Lookup(local, p).value.spec == Lookup(t.policies, p).value.spec
  {
    var a := ResolveGroups(t);
    NeededIffRendered(a, c, ds, p);
    RendersKnown(a, c, ds, g, p, |ds|);
    var spec := Lookup(t.groups, g).value.spec;
    assert p in Resolved(spec, t.policies);
    PolicyObjectIs(t, c, ds, p);
  }

  /** Resolving a rendered group on the member gives exactly the gateway's members and modes,
      whatever other policies the member holds. */
  lemma MeaningPreserved(t: Tables, c: Cluster, ds: seq<Distribution>, o: ManagedObject, local: seq<Policy>, p: string)
    requires UniqueNames(t.policies)
    requires o in Objects(t, c, ds) && o.GroupObject?
    requires Holds(local, Objects(t, c, ds))
    ensures
      var mode := RenderedMode(ResolveGroups(t), c, ds, o.name, p);
      Effective(o.group, local, p) == if mode.Some? then Some(EffectiveMember(p, mode.value, ByName)) else None
  {
    var a := ResolveGroups(t);
    GroupObjectIs(t, c, ds, o);
    var modes := GroupModes(a, c, ds, o.name);
    RefsLookup(modes, p);
    RendersKnown(a, c, ds, o.name, p, |ds|);
    var mode := RenderedMode(a, c, ds, o.name, p);
    assert Get(modes, p) == mode;
    if mode.Some? {
      MemberHasPolicy(t, c, ds, local, o.name, p);
      if mode.value == "" { UnsetMode(t, c, ds, o.name, p); }
    }
  }

  /** ... and it meets no missing member and no malformed selector. */
  lemma MeaningPreservedCleanly(t: Tables, c: Cluster, ds: seq<Distribution>, o: ManagedObject, local: seq<Policy>)
    requires o in Objects(t, c, ds) && o.GroupObject?
    requires Holds(local, Objects(t, c, ds))
    ensures Conditions(o.group, local) == []
  {
    var a := ResolveGroups(t);
    GroupObjectIs(t, c, ds, o);
    var refs := o.group.policies.byName;
    forall i | 0 <= i < |refs| ensures Lookup(local, refs[i].name).Some? {
      assert refs[i] in refs;
      RefsContents(GroupModes(a, c, ds, o.name), refs[i]);
      MemberHasPolicy(t, c, ds, local, o.name, refs[i].name);
    }
    NothingMissing(refs, local, |refs|);
  }

  lemma {:induction false} NothingMissing(refs: seq<PolicyRef>, ps: seq<Policy>, j: nat)
    requires j <= |refs| && forall i :: 0 <= i < |refs| ==> Lookup(ps, refs[i].name).Some?
    ensures MissingRefs(refs, ps, j) == []
  {
    if j > 0 { NothingMissing(refs, ps, j - 1); }
  }

  // ---- monotone in the distributions ----

  /** Distributions added anywhere in the list take no object away and weaken no mode. */
  lemma MoreDistributionsRenderMore(t: Tables, c: Cluster, ds: seq<Distribution>, more: seq<Distribution>, o: ManagedObject)
    requires forall d :: d in ds ==> d in more
    requires o in Objects(t, c, ds)
    ensures exists o' :: o' in Objects(t, c, more) && AtLeast(o, o')
  {
    var a := ResolveGroups(t);
    ObjectKinds(t, c, ds, o);
    match o {
      case PolicyObject(n, _, _) =>
        NeededMore(a, c, ds, more, n);
        ObjectKinds(t, c, more, o);
      case ExceptionObject(n, _, _) =>
        NeededExceptionsMore(c, ds, more, n);
        ObjectKinds(t, c, more, o);
      case GroupObject(n, labels, spec) =>
        GroupMore(t, c, ds, more, o);
    }
  }

  /** The same object, except that a group may gain members and stricter modes. */
  ghost predicate AtLeast(o: ManagedObject, o': ManagedObject) {
    if o.GroupObject? then
      && o'.GroupObject? && o'.name == o.name && o'.labels == o.labels
      && o'.group == o.group.(policies := o'.group.policies)
      && forall ref :: ref in o.group.policies.byName ==> Kept(ref, o'.group.policies.byName)
    else o' == o
  }

  ghost predicate Kept(ref: PolicyRef, refs: seq<PolicyRef>) {
    exists ref' :: ref' in refs && ref'.name == ref.name && Rank(ref'.enforcementMode) >= Rank(ref.enforcementMode)
  }

  lemma Found<T>(x: T, xs: seq<T>) returns (i: nat)
    requires x in xs
    ensures i < |xs| && xs[i] == x
  {
    i :| 0 <= i < |xs| && xs[i] == x;
  }

  lemma NeededMore(a: Modes, c: Cluster, ds: seq<Distribution>, more: seq<Distribution>, p: string)
    requires forall d :: d in ds ==> d in more
    requires p in NeededPolicies(a, c, ds)
    ensures p in NeededPolicies(a, c, more)
  {
    NeededContents(a, c, ds, p, |ds|);
    NeededContents(a, c, more, p, |more|);
    var i :| 0 <= i < |ds| && Active(ds[i], c) && p in Members(a, ds[i]);
    var k := Found(ds[i], more);
  }

  lemma NeededExceptionsMore(c: Cluster, ds: seq<Distribution>, more: seq<Distribution>, e: string)
    requires forall d :: d in ds ==> d in more
    requires e in NeededExceptions(c, ds)
    ensures e in NeededExceptions(c, more)
  {
    NeededExceptionContents(c, ds, e, |ds|);
    NeededExceptionContents(c, more, e, |more|);
    var i :| 0 <= i < |ds| && Active(ds[i], c) && e in Elements(ds[i].spec.policyExceptions);
    var k := Found(ds[i], more);
  }

  lemma RendersMore(a: Modes, c: Cluster, ds: seq<Distribution>, more: seq<Distribution>, g: string)
    requires forall d :: d in ds ==> d in more
    requires RendersGroup(a, c, ds, g)
    ensures RendersGroup(a, c, more, g)
  {
    RendersContents(a, c, ds, g, |ds|);
    RendersContents(a, c, more, g, |more|);
    var i :| 0 <= i < |ds| && Lists(a, c, ds[i], g);
    var k := Found(ds[i], more);
  }

  lemma ModeNotWeaker(a: Modes, c: Cluster, ds: seq<Distribution>, more: seq<Distribution>, g: string, p: string)
    requires forall d :: d in ds ==> d in more
    requires RenderedMode(a, c, ds, g, p).Some?
    ensures RenderedMode(a, c, more, g, p).Some?
    ensures Rank(RenderedMode(a, c, more, g, p).value) >= Rank(RenderedMode(a, c, ds, g, p).value)
  {
    ModeIsStrictest(a, c, ds, g, p, |ds|);
    ModeIsStrictest(a, c, more, g, p, |more|);
    var i :| 0 <= i < |ds| && Contribution(a, c, ds[i], g, p) == RenderedMode(a, c, ds, g, p);
    var k := Found(ds[i], more);
  }

  lemma GroupMore(t: Tables, c: Cluster, ds: seq<Distribution>, more: seq<Distribution>, o: ManagedObject)
    requires forall d :: d in ds ==> d in more
    requires o in Objects(t, c, ds) && o.GroupObject?
    ensures o.name in ResolveGroups(t)
    ensures GroupObjectFor(t, c, more, o.name) in Objects(t, c, more) && AtLeast(o, GroupObjectFor(t, c, more, o.name))
  {
    var a := ResolveGroups(t);
    GroupObjectIs(t, c, ds, o);
    RendersMore(a, c, ds, more, o.name);
    GroupObjectAppears(t, c, more, o.name);
    forall ref | ref in o.group.policies.byName ensures Kept(ref, Refs(GroupModes(a, c, more, o.name))) {
      RefKept(a, c, ds, more, o.name, ref);
    }
  }

  lemma RefKept(a: Modes, c: Cluster, ds: seq<Distribution>, more: seq<Distribution>, g: string, ref: PolicyRef)
    requires forall d :: d in ds ==> d in more
    requires g in a && ref in Refs(GroupModes(a, c, ds, g))
    ensures Kept(ref, Refs(GroupModes(a, c, more, g)))
  {
    RefsContents(GroupModes(a, c, ds, g), ref);
    ModeNotWeaker(a, c, ds, more, g, ref.name);
    RendersKnown(a, c, more, g, ref.name, |more|);
    RefsLookup(GroupModes(a, c, more, g), ref.name);
    assert LastRef(Refs(GroupModes(a, c, more, g)), ref.name).value in Refs(GroupModes(a, c, more, g));
  }
}
