/** The snapshot read off its inputs: which distributions target a cluster, and which objects, modes,
    matched names and errors that gives, in terms of the lists and specs alone. */
module RenderExact {
  import opened Names
  import opened GroupResolve
  import opened Render
  import opened RenderTheorems
  import opened RenderOrder

  /** A live distribution that names the cluster, or whose selector matches its labels. */
  predicate Targets(d: Distribution, c: Cluster) {
    var sel := d.spec.clusterSelector;
    && !d.spec.deleted
    && (c.name in d.spec.byName || (sel.Some? && sel.value.Valid? && sel.value.matches(c.labels)))
  }

  /** A live distribution that does not name the cluster and whose selector is malformed. */
  predicate Broken(d: Distribution, c: Cluster) {
    var sel := d.spec.clusterSelector;
    !d.spec.deleted && c.name !in d.spec.byName && sel.Some? && sel.value.Malformed?
  }

  lemma TargetExact(d: Distribution, c: Cluster)
    ensures Active(d, c) <==> Targets(d, c)
    ensures !d.spec.deleted && DistMatches(d, c).Bad? <==> Broken(d, c)
    ensures Broken(d, c) ==> DistMatches(d, c) == Bad(d.spec.clusterSelector.value.error)
  {
  }

  // ---- labels ----

  /** The labels are the source's, with the managed-by label set. */
  predicate Managed(source: Labels, labels: Labels) {
    && labels.Keys == source.Keys + {"kubesentry.io/managed-by"}
    && labels["kubesentry.io/managed-by"] == "platform"
    && forall k :: k in source && k != "kubesentry.io/managed-by" ==> labels[k] == source[k]
  }

  lemma ManagedExact(source: Labels, labels: Labels)
    ensures labels == WithManaged(source) <==> Managed(source, labels)
  {
    if Managed(source, labels) {
      forall k ensures Get(labels, k) == Get(WithManaged(source), k) {}
      SameMap(labels, WithManaged(source));
    }
  }

  // ---- which objects are shipped ----

  /** The group a name denotes in the tables: the last one, and it is enabled. */
  ghost predicate EnabledGroup(t: Tables, g: string, spec: PolicyGroupSpec) {
    spec.enabled && exists i :: LastNamed(t.groups, g, i) && t.groups[i].spec == spec
  }

  lemma EnabledExact(t: Tables, g: string)
    ensures g in ResolveGroups(t) <==> exists spec :: EnabledGroup(t, g, spec)
    ensures forall spec :: EnabledGroup(t, g, spec) ==> Lookup(t.groups, g).Some? && Lookup(t.groups, g).value.spec == spec
    ensures g in ResolveGroups(t) ==> EnabledGroup(t, g, Lookup(t.groups, g).value.spec)
  {
    if g in ResolveGroups(t) {
      var x := Lookup(t.groups, g).value;
      LookupExact(t.groups, g, x);
      var i :| LastNamed(t.groups, g, i) && t.groups[i] == x;
      assert EnabledGroup(t, g, x.spec);
    }
    forall spec | EnabledGroup(t, g, spec) ensures Lookup(t.groups, g).Some? && Lookup(t.groups, g).value.spec == spec {
      var i :| LastNamed(t.groups, g, i) && t.groups[i].spec == spec;
      LookupExact(t.groups, g, t.groups[i]);
    }
  }

  /** Some live distribution that targets the cluster lists the group. */
  ghost predicate Wanted(c: Cluster, ds: seq<Distribution>, g: string) {
    exists d :: d in ds && Targets(d, c) && g in d.spec.policyGroups
  }

  lemma WantedExact(a: Modes, c: Cluster, ds: seq<Distribution>, g: string)
    ensures RendersGroup(a, c, ds, g) <==> g in a && Wanted(c, ds, g)
  {
    RendersContents(a, c, ds, g, |ds|);
    if i :| 0 <= i < |ds| && Lists(a, c, ds[i], g) {
      ElementsContents(ds[i].spec.policyGroups, |ds[i].spec.policyGroups|);
      TargetExact(ds[i], c);
      assert ds[i] in ds;
    }
    if g in a && Wanted(c, ds, g) {
      var d :| d in ds && Targets(d, c) && g in d.spec.policyGroups;
      var i := Found(d, ds);
      ElementsContents(d.spec.policyGroups, |d.spec.policyGroups|);
      TargetExact(d, c);
      assert Lists(a, c, ds[i], g);
    }
  }

  /** A group is shipped exactly when it exists, is enabled, and a live distribution that targets the
      cluster by name or by selector lists it. */
  lemma GroupShipped(c: Cluster, ds: seq<Distribution>, t: Tables, digest: seq<ManagedObject> -> string, g: string)
    ensures
      (exists o :: o in Snapshot(c, ds, t, digest).objects && o.GroupObject? && o.name == g) <==>
      (exists spec :: EnabledGroup(t, g, spec)) && Wanted(c, ds, g)
  {
    EnabledExact(t, g);
    WantedExact(ResolveGroups(t), c, ds, g);
    if o :| o in Objects(t, c, ds) && o.GroupObject? && o.name == g { GroupObjectIs(t, c, ds, o); }
    if RendersGroup(ResolveGroups(t), c, ds, g) && g in ResolveGroups(t) {
      GroupObjectAppears(t, c, ds, g);
      assert GroupObjectFor(t, c, ds, g).name == g;
    }
  }

  /** The policy is a member of an enabled group that the cluster gets. */
  ghost predicate WantedMember(c: Cluster, ds: seq<Distribution>, t: Tables, p: string) {
    exists g, spec :: EnabledGroup(t, g, spec) && Wanted(c, ds, g) && p in Resolved(spec, t.policies)
  }

  lemma NeededExact(c: Cluster, ds: seq<Distribution>, t: Tables, p: string)
    ensures p in NeededPolicies(ResolveGroups(t), c, ds) <==> WantedMember(c, ds, t, p)
  {
    var a := ResolveGroups(t);
    NeededContents(a, c, ds, p, |ds|);
    if p in NeededPolicies(a, c, ds) {
      var i :| 0 <= i < |ds| && Active(ds[i], c) && p in Members(a, ds[i]);
      MembersContents(a, ds[i], p, |ds[i].spec.policyGroups|);
      var g :| g in a && g in Elements(ds[i].spec.policyGroups) && p in a[g];
      EnabledExact(t, g);
      RendersContents(a, c, ds, g, |ds|);
      assert Lists(a, c, ds[i], g);
      WantedExact(a, c, ds, g);
    }
    if g, spec :| EnabledGroup(t, g, spec) && Wanted(c, ds, g) && p in Resolved(spec, t.policies) {
      EnabledExact(t, g);
      WantedExact(a, c, ds, g);
      RendersContents(a, c, ds, g, |ds|);
      var i :| 0 <= i < |ds| && Lists(a, c, ds[i], g);
      assert p in a[g];
      MembersContents(a, ds[i], p, |ds[i].spec.policyGroups|);
    }
  }

  /** A policy is shipped, as the tables have it, exactly when it is a member of a shipped group. */
  lemma PolicyShipped(
    c: Cluster, ds: seq<Distribution>, t: Tables, digest: seq<ManagedObject> -> string, p: string, labels: Labels, spec: PolicySpec)
    ensures
      PolicyObject(p, labels, spec) in Snapshot(c, ds, t, digest).objects <==>
      && WantedMember(c, ds, t, p)
      && exists k :: LastNamed(t.policies, p, k) && t.policies[k].spec == spec && Managed(t.policies[k].labels, labels)
  {
    var o := PolicyObject(p, labels, spec);
    ObjectKinds(t, c, ds, o);
    NeededExact(c, ds, t, p);
    if k :| LastNamed(t.policies, p, k) && t.policies[k].spec == spec && Managed(t.policies[k].labels, labels) {
      LookupExact(t.policies, p, t.policies[k]);
      ManagedExact(t.policies[k].labels, labels);
    }
    if Lookup(t.policies, p).Some? {
      var x := Lookup(t.policies, p).value;
      LookupExact(t.policies, p, x);
      ManagedExact(x.labels, labels);
    }
  }

  /** An exception is shipped, as the tables have it, exactly when a live distribution that targets the
      cluster lists it. */
  lemma ExceptionShipped(
    c: Cluster, ds: seq<Distribution>, t: Tables, digest: seq<ManagedObject> -> string, e: string, labels: Labels, spec: string)
    ensures
      ExceptionObject(e, labels, spec) in Snapshot(c, ds, t, digest).objects <==>
      && (exists d :: d in ds && Targets(d, c) && e in d.spec.policyExceptions)
      && exists k :: LastNamed(t.exceptions, e, k) && t.exceptions[k].spec == spec && Managed(t.exceptions[k].labels, labels)
  {
    var o := ExceptionObject(e, labels, spec);
    ObjectKinds(t, c, ds, o);
    NeededExceptionExact(c, ds, e);
    if k :| LastNamed(t.exceptions, e, k) && t.exceptions[k].spec == spec && Managed(t.exceptions[k].labels, labels) {
      LookupExact(t.exceptions, e, t.exceptions[k]);
      ManagedExact(t.exceptions[k].labels, labels);
    }
    if Lookup(t.exceptions, e).Some? {
      var x := Lookup(t.exceptions, e).value;
      LookupExact(t.exceptions, e, x);
      ManagedExact(x.labels, labels);
    }
  }

  lemma NeededExceptionExact(c: Cluster, ds: seq<Distribution>, e: string)
    ensures e in NeededExceptions(c, ds) <==> exists d :: d in ds && Targets(d, c) && e in d.spec.policyExceptions
  {
    NeededExceptionContents(c, ds, e, |ds|);
    if i :| 0 <= i < |ds| && Active(ds[i], c) && e in Elements(ds[i].spec.policyExceptions) {
      ElementsContents(ds[i].spec.policyExceptions, |ds[i].spec.policyExceptions|);
      TargetExact(ds[i], c);
      assert ds[i] in ds;
    }
    if d :| d in ds && Targets(d, c) && e in d.spec.policyExceptions {
      var i := Found(d, ds);
      ElementsContents(d.spec.policyExceptions, |d.spec.policyExceptions|);
      TargetExact(d, c);
    }
  }

  // ---- modes ----

  /** The mode of the last override for the cluster; unset when there is none. */
  ghost predicate OverrideIs(os: seq<Override>, cluster: string, mode: string) {
    if exists k :: 0 <= k < |os| && os[k].cluster == cluster then
      exists k :: LastOverrideAt(os, cluster, k) && os[k].enforcementMode == mode
    else mode == ""
  }

  predicate LastOverrideAt(os: seq<Override>, cluster: string, k: int) {
    0 <= k < |os| && os[k].cluster == cluster && forall l :: k < l < |os| ==> os[l].cluster != cluster
  }

  lemma {:induction false} OverrideAt(os: seq<Override>, cluster: string, j: nat) returns (k: int)
    requires j <= |os|
    ensures -1 <= k < j && forall l :: k < l < j ==> os[l].cluster != cluster
    ensures k >= 0 ==> os[k].cluster == cluster && LastOverride(os, cluster, j) == os[k].enforcementMode
    ensures k < 0 ==> LastOverride(os, cluster, j) == ""
  {
    if j == 0 { k := -1; }
    else if os[j - 1].cluster == cluster { k := j - 1; }
    else { k := OverrideAt(os, cluster, j - 1); }
  }

  lemma OverrideExact(os: seq<Override>, cluster: string, mode: string)
    ensures OverrideIs(os, cluster, mode) <==> mode == LastOverride(os, cluster)
  {
    var k := OverrideAt(os, cluster, |os|);
    if k >= 0 { assert LastOverrideAt(os, cluster, k); }
  }

  /** The distribution asks for this mode of the group's member: its override for the cluster if that is
      set, else the mode the group gives the policy. */
  ghost predicate Asks(t: Tables, c: Cluster, d: Distribution, g: string, p: string, mode: string) {
    && Targets(d, c) && g in d.spec.policyGroups
    && exists spec :: EnabledGroup(t, g, spec) && p in Resolved(spec, t.policies) && AskedMode(d, c, Resolved(spec, t.policies)[p], mode)
  }

  ghost predicate AskedMode(d: Distribution, c: Cluster, m: EffectiveMember, mode: string) {
    if mode != "" && OverrideIs(d.spec.overrides, c.name, mode) then true
    else OverrideIs(d.spec.overrides, c.name, "") && mode == m.enforcementMode
  }

  lemma AsksExact(t: Tables, c: Cluster, d: Distribution, g: string, p: string, mode: string)
    ensures Contribution(ResolveGroups(t), c, d, g, p) == Some(mode) <==> Asks(t, c, d, g, p, mode)
  {
    ElementsContents(d.spec.policyGroups, |d.spec.policyGroups|);
    TargetExact(d, c);
    EnabledExact(t, g);
    OverrideExact(d.spec.overrides, c.name, mode);
    OverrideExact(d.spec.overrides, c.name, "");
  }

  /** The `i`-th of the first `j` distributions settles the mode: it asks for enforce, or nobody does and
      it is the first to ask for a set mode, or nobody asks for one. */
  ghost predicate Prevails(a: Modes, c: Cluster, ds: seq<Distribution>, g: string, p: string, j: nat, i: int, mode: string)
    requires j <= |ds|
  {
    && 0 <= i < j && Contribution(a, c, ds[i], g, p) == Some(mode)
    && forall k :: 0 <= k < j ==> GivesWay(Contribution(a, c, ds[k], g, p), mode, k < i)
  }

  predicate GivesWay(other: Option<string>, mode: string, earlier: bool) {
    other.Some? && mode != "enforce" ==> other.value != "enforce" && (mode == "" || earlier ==> other.value == "")
  }

  lemma {:induction false} Prevailing(a: Modes, c: Cluster, ds: seq<Distribution>, g: string, p: string, j: nat) returns (i: int)
    requires j <= |ds| && RenderedMode(a, c, ds, g, p, j).Some?
    ensures Prevails(a, c, ds, g, p, j, i, RenderedMode(a, c, ds, g, p, j).value)
  {
    var before, last := RenderedMode(a, c, ds, g, p, j - 1), Contribution(a, c, ds[j - 1], g, p);
    if before.Some? { i := Prevailing(a, c, ds, g, p, j - 1); } else { NobodyAsks(a, c, ds, g, p, j - 1); }
    var now := RenderedMode(a, c, ds, g, p, j);
    if before != now { i := j - 1; }
  }

  lemma {:induction false} NobodyAsks(a: Modes, c: Cluster, ds: seq<Distribution>, g: string, p: string, j: nat)
    requires j <= |ds|
    ensures RenderedMode(a, c, ds, g, p, j).None? <==> forall k :: 0 <= k < j ==> Contribution(a, c, ds[k], g, p).None?
  {
    if j > 0 { NobodyAsks(a, c, ds, g, p, j - 1); }
  }

  /** At most one mode prevails. */
  lemma PrevailsOnce(a: Modes, c: Cluster, ds: seq<Distribution>, g: string, p: string, i: int, mode: string, i': int, mode': string)
    requires Prevails(a, c, ds, g, p, |ds|, i, mode) && Prevails(a, c, ds, g, p, |ds|, i', mode')
    ensures mode == mode'
  {
    assert GivesWay(Contribution(a, c, ds[i'], g, p), mode, i' < i);
    assert GivesWay(Contribution(a, c, ds[i], g, p), mode', i < i');
  }

  /** The `i`-th distribution's request for the member wins over all others. */
  ghost predicate Wins(t: Tables, c: Cluster, ds: seq<Distribution>, g: string, p: string, i: int, mode: string) {
    && 0 <= i < |ds| && Asks(t, c, ds[i], g, p, mode)
    && forall k, other :: 0 <= k < |ds| && Asks(t, c, ds[k], g, p, other) ==> GivesWay(Some(other), mode, k < i)
  }

  lemma WinsExact(t: Tables, c: Cluster, ds: seq<Distribution>, g: string, p: string, i: int, mode: string)
    ensures Wins(t, c, ds, g, p, i, mode) <==> Prevails(ResolveGroups(t), c, ds, g, p, |ds|, i, mode)
  {
    var a := ResolveGroups(t);
    if 0 <= i < |ds| { AsksExact(t, c, ds[i], g, p, mode); }
    if Wins(t, c, ds, g, p, i, mode) {
      forall k | 0 <= k < |ds| ensures GivesWay(Contribution(a, c, ds[k], g, p), mode, k < i) {
        var x := Contribution(a, c, ds[k], g, p);
        if x.Some? { AsksExact(t, c, ds[k], g, p, x.value); }
      }
    }
    if Prevails(a, c, ds, g, p, |ds|, i, mode) {
      forall k, other | 0 <= k < |ds| && Asks(t, c, ds[k], g, p, other) ensures GivesWay(Some(other), mode, k < i) {
        AsksExact(t, c, ds[k], g, p, other);
        assert GivesWay(Contribution(a, c, ds[k], g, p), mode, k < i);
      }
    }
  }

  lemma ModeExact(t: Tables, c: Cluster, ds: seq<Distribution>, g: string, p: string, mode: string)
    ensures RenderedMode(ResolveGroups(t), c, ds, g, p) == Some(mode) <==> exists i :: Wins(t, c, ds, g, p, i, mode)
  {
    var a := ResolveGroups(t);
    if RenderedMode(a, c, ds, g, p).Some? {
      var i := Prevailing(a, c, ds, g, p, |ds|);
      var now := RenderedMode(a, c, ds, g, p).value;
      WinsExact(t, c, ds, g, p, i, now);
      if i' :| Wins(t, c, ds, g, p, i', mode) {
        WinsExact(t, c, ds, g, p, i', mode);
        PrevailsOnce(a, c, ds, g, p, i, now, i', mode);
      }
    } else {
      NobodyAsks(a, c, ds, g, p, |ds|);
      if i' :| Wins(t, c, ds, g, p, i', mode) { AsksExact(t, c, ds[i'], g, p, mode); }
    }
  }

  /** The shipped group keeps everything of its source but the member list, which names its members. */
  ghost predicate CarriesOver(source: PolicyGroup, o: ManagedObject)
    requires o.GroupObject?
  {
    && Managed(source.labels, o.labels)
    && o.group.displayName == source.spec.displayName && o.group.description == source.spec.description
    && o.group.enabled == source.spec.enabled && o.group.namespaceSelector == source.spec.namespaceSelector
    && o.group.policies.bySelector == None && o.group.policies.exclude == [] && o.group.selectorEnforcementMode == ""
  }

  /** A shipped group is its source with one entry per member, each with the mode that wins. */
  lemma GroupObjectExact(
    c: Cluster, ds: seq<Distribution>, t: Tables, digest: seq<ManagedObject> -> string, o: ManagedObject, ref: PolicyRef)
    requires o in Snapshot(c, ds, t, digest).objects && o.GroupObject?
    ensures exists k :: LastNamed(t.groups, o.name, k) && CarriesOver(t.groups[k], o)
    ensures ref in o.group.policies.byName <==> exists i :: Wins(t, c, ds, o.name, ref.name, i, ref.enforcementMode)
  {
    GroupObjectIs(t, c, ds, o);
    var a, source := ResolveGroups(t), Lookup(t.groups, o.name).value;
    LookupExact(t.groups, o.name, source);
    ManagedExact(source.labels, o.labels);
    var k :| LastNamed(t.groups, o.name, k) && t.groups[k] == source;
    assert CarriesOver(t.groups[k], o);
    GroupRef(a, c, ds, o.name, ref);
    ModeExact(t, c, ds, o.name, ref.name, ref.enforcementMode);
  }

  lemma GroupRef(a: Modes, c: Cluster, ds: seq<Distribution>, g: string, ref: PolicyRef)
    requires g in a
    ensures ref in Refs(GroupModes(a, c, ds, g)) <==> RenderedMode(a, c, ds, g, ref.name) == Some(ref.enforcementMode)
  {
    var modes := GroupModes(a, c, ds, g);
    RendersKnown(a, c, ds, g, ref.name, |ds|);
    assert Get(modes, ref.name) == RenderedMode(a, c, ds, g, ref.name);
    if ref in Refs(modes) { RefsContents(modes, ref); }
    RefsLookup(modes, ref.name);
  }

  // ---- order ----

  function KindRank(o: ManagedObject): nat {
    match o case PolicyObject(_, _, _) => 0 case GroupObject(_, _, _) => 1 case ExceptionObject(_, _, _) => 2
  }

  predicate Before(o: ManagedObject, o': ManagedObject) {
    KindRank(o) < KindRank(o') || (KindRank(o) == KindRank(o') && Less(o.name, o'.name))
  }

  /** All of one kind, each name before all later ones. */
  ghost predicate InOrder(part: seq<ManagedObject>, rank: nat) {
    && (forall i :: 0 <= i < |part| ==> KindRank(part[i]) == rank)
    && (forall i, j :: 0 <= i < j < |part| ==> Less(part[i].name, part[j].name))
  }

  lemma ValuesInOrder(m: map<string, ManagedObject>, rank: nat)
    requires forall n :: n in m ==> m[n].name == n && KindRank(m[n]) == rank
    ensures InOrder(SortedValues(m), rank)
  {
    var names, part := Listing(m.Keys), SortedValues(m);
    forall i | 0 <= i < |part| ensures KindRank(part[i]) == rank { PickAt(m, names, |names|, i); }
    forall i, j | 0 <= i < j < |part| ensures Less(part[i].name, part[j].name) {
      PickAt(m, names, |names|, i);
      PickAt(m, names, |names|, j);
      ListingStrict(m.Keys, i, j);
    }
  }

  lemma PartsInOrder(ps: seq<ManagedObject>, gs: seq<ManagedObject>, es: seq<ManagedObject>, i: nat, j: nat)
    requires InOrder(ps, 0) && InOrder(gs, 1) && InOrder(es, 2) && i < j < |ps + gs + es|
    ensures Before((ps + gs + es)[i], (ps + gs + es)[j])
  {
  }

  lemma Parts(t: Tables, c: Cluster, ds: seq<Distribution>)
    returns (ps: seq<ManagedObject>, gs: seq<ManagedObject>, es: seq<ManagedObject>)
    ensures Objects(t, c, ds) == ps + gs + es && InOrder(ps, 0) && InOrder(gs, 1) && InOrder(es, 2)
  {
    var p, g, e := PolicyPart(t, c, ds), GroupPart(t, c, ds), ExceptionPart(t, c, ds);
    ValuesInOrder(p, 0);
    ValuesInOrder(g, 1);
    ValuesInOrder(e, 2);
    ps, gs, es := SortedValues(p), SortedValues(g), SortedValues(e);
  }

  /** Policies, then groups, then exceptions, each by name and once; the hash is that of this list. */
  lemma ObjectsOrdered(c: Cluster, ds: seq<Distribution>, t: Tables, digest: seq<ManagedObject> -> string, i: nat, j: nat)
    requires i < j < |Snapshot(c, ds, t, digest).objects|
    ensures Before(Snapshot(c, ds, t, digest).objects[i], Snapshot(c, ds, t, digest).objects[j])
    ensures Snapshot(c, ds, t, digest).hash == digest(Snapshot(c, ds, t, digest).objects)
  {
    var ps, gs, es := Parts(t, c, ds);
    PartsInOrder(ps, gs, es, i, j);
  }

  // ---- matched names and errors ----

  lemma {:induction false} MatchedContents(c: Cluster, ds: seq<Distribution>, n: string, j: nat)
    requires j <= |ds|
    ensures n in MatchedNames(c, ds, j) <==> exists i :: 0 <= i < j && ds[i].name == n && (Targets(ds[i], c) || Broken(ds[i], c))
  {
    if j > 0 {
      MatchedContents(c, ds, n, j - 1);
      TargetExact(ds[j - 1], c);
    }
  }

  /** The matched names, sorted: the distributions that target the cluster and those whose selector
      cannot be read. */
  lemma MatchedExact(c: Cluster, ds: seq<Distribution>, t: Tables, digest: seq<ManagedObject> -> string, n: string)
    ensures n in Snapshot(c, ds, t, digest).matched <==> exists d :: d in ds && d.name == n && (Targets(d, c) || Broken(d, c))
    ensures Sorted(Snapshot(c, ds, t, digest).matched)
  {
    var names := MatchedNames(c, ds);
    MatchedContents(c, ds, n, |ds|);
    SortNamesSorted(names);
    SameElements(SortNames(names), names);
    if i :| 0 <= i < |ds| && ds[i].name == n && (Targets(ds[i], c) || Broken(ds[i], c)) { assert ds[i] in ds; }
    if d :| d in ds && d.name == n && (Targets(d, c) || Broken(d, c)) { var i := Found(d, ds); }
  }

  lemma {:induction false} MissingGroupContents(t: Tables, names: seq<string>, x: RenderError, j: nat)
    requires j <= |names|
    ensures x in MissingGroups(t, names, j) <==> x.GroupNotFound? && x.name in Elements(names, j) && x.name !in ObjectNames(t.groups)
  {
    if j > 0 { MissingGroupContents(t, names, x, j - 1); }
  }

  lemma {:induction false} MissingExceptionContents(t: Tables, names: seq<string>, x: RenderError, j: nat)
    requires j <= |names|
    ensures x in MissingExceptions(t, names, j) <==>
            x.ExceptionNotFound? && x.name in Elements(names, j) && x.name !in ObjectNames(t.exceptions)
  {
    if j > 0 { MissingExceptionContents(t, names, x, j - 1); }
  }

  lemma Unlisted<S(!new)>(ps: seq<Object<S>>, n: string)
    ensures n !in ObjectNames(ps) <==> forall p :: p in ps ==> p.name != n
  {
    NamesContents(ps, n, |ps|);
    if p :| p in ps && p.name == n { PresentFound(ps, p); }
    if n in ObjectNames(ps) { assert Lookup(ps, n).value in ps; }
  }

  /** What the distribution has to report: a selector that cannot be read, or else each group and each
      exception that it lists and that does not exist. */
  ghost predicate Reports(t: Tables, c: Cluster, d: Distribution, x: RenderError) {
    match x
    case InvalidClusterSelector(error) => Broken(d, c) && d.spec.clusterSelector.value.error == error
    case GroupNotFound(g) => Targets(d, c) && g in d.spec.policyGroups && forall y :: y in t.groups ==> y.name != g
    case ExceptionNotFound(e) => Targets(d, c) && e in d.spec.policyExceptions && forall y :: y in t.exceptions ==> y.name != e
  }

  lemma FailuresExact(t: Tables, c: Cluster, d: Distribution, x: RenderError)
    ensures x in Failures(t, c, d) <==> Reports(t, c, d, x)
  {
    TargetExact(d, c);
    var gs, es := d.spec.policyGroups, d.spec.policyExceptions;
    MissingGroupContents(t, gs, x, |gs|);
    MissingExceptionContents(t, es, x, |es|);
    ElementsContents(gs, |gs|);
    ElementsContents(es, |es|);
    if x.GroupNotFound? { Unlisted(t.groups, x.name); }
    if x.ExceptionNotFound? { Unlisted(t.exceptions, x.name); }
  }

  /** With unique distribution names each entry of the error map holds exactly what its distribution has
      to report, and a distribution has an entry exactly when it has something to report. */
  lemma ErrorsExact(c: Cluster, ds: seq<Distribution>, t: Tables, digest: seq<ManagedObject> -> string, d: Distribution, x: RenderError)
    requires UniqueNames(ds) && d in ds
    ensures
      var errors := Snapshot(c, ds, t, digest).errors;
      && (d.name in errors <==> exists y :: Reports(t, c, d, y))
      && (d.name in errors && x in errors[d.name] <==> Reports(t, c, d, x))
  {
    ErrorAt(t, c, ds, d.name, |ds|);
    var i := Found(d, ds);
    var fs := Failures(t, c, d);
    FailuresExact(t, c, d, x);
    if fs != [] {
      FailuresExact(t, c, d, fs[0]);
    } else if y :| Reports(t, c, d, y) {
      FailuresExact(t, c, d, y);
    }
    if d.name in ErrorMap(t, c, ds) {
      var k :| 0 <= k < |ds| && ds[k].name == d.name && Failures(t, c, ds[k]) != [];
      assert ds[k] in ds;
    }
  }

  lemma ErrorsOnlyListed(c: Cluster, ds: seq<Distribution>, t: Tables, digest: seq<ManagedObject> -> string, n: string)
    requires UniqueNames(ds) && n in Snapshot(c, ds, t, digest).errors
    ensures exists d :: d in ds && d.name == n
  {
    ErrorAt(t, c, ds, n, |ds|);
    var k :| 0 <= k < |ds| && ds[k].name == n && Failures(t, c, ds[k]) != [];
    assert ds[k] in ds;
  }
}
