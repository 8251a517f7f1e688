/** When a snapshot does not depend on the order of any input list. */
module RenderOrder {
  import opened Names
  import opened GroupResolve
  import opened Render
  import opened RenderTheorems

  predicate ValidMode(mode: string) {
    mode == "" || mode == MODE_AUDIT || mode == MODE_ENFORCE
  }

  /** `stricter` commutes exactly when two distinct set modes, neither enforce, do not meet. */
  lemma StricterCommutes(a: string, b: string)
    ensures Stricter(a, b) == Stricter(b, a) <==>
      a == b || a == "" || b == "" || a == MODE_ENFORCE || b == MODE_ENFORCE
  {
  }

  ghost predicate ValidModes(t: Tables, ds: seq<Distribution>) {
    && (forall p :: p in t.policies ==> ValidMode(p.spec.enforcementMode))
    && (forall g :: g in t.groups ==> ValidMode(g.spec.selectorEnforcementMode))
    && (forall g, ref :: g in t.groups && ref in g.spec.policies.byName ==> ValidMode(ref.enforcementMode))
    && (forall d, o :: d in ds && o in d.spec.overrides ==> ValidMode(o.enforcementMode))
  }

  /** The same rows, in any order. */
  ghost predicate Permuted(t: Tables, u: Tables) {
    && multiset(t.groups) == multiset(u.groups) && UniqueNames(t.groups)
    && multiset(t.policies) == multiset(u.policies) && UniqueNames(t.policies)
    && multiset(t.exceptions) == multiset(u.exceptions) && UniqueNames(t.exceptions)
  }

  // ---- groups and their resolutions ----

  lemma NamesPermutation<S(!new)>(ps: seq<Object<S>>, qs: seq<Object<S>>)
    requires UniqueNames(ps) && multiset(ps) == multiset(qs)
    ensures ObjectNames(ps) == ObjectNames(qs)
  {
    forall n ensures n in ObjectNames(ps) <==> n in ObjectNames(qs) {
      LookupPermutation(ps, qs, n);
    }
  }

  lemma ChosenPermutation<S(!new)>(ps: seq<Object<S>>, qs: seq<Object<S>>, keys: set<string>)
    requires UniqueNames(ps) && multiset(ps) == multiset(qs)
    ensures Chosen(ps, keys) == Chosen(qs, keys)
  {
    NamesPermutation(ps, qs);
    forall n | n in ObjectNames(ps) ensures Lookup(ps, n) == Lookup(qs, n) {
      LookupPermutation(ps, qs, n);
    }
  }

  lemma ResolvePermutedGroups(t: Tables, u: Tables)
    requires Permuted(t, u)
    ensures ResolveGroups(t) == ResolveGroups(u)
  {
    NamesPermutation(t.groups, u.groups);
    forall g | g in ObjectNames(t.groups)
      ensures Lookup(t.groups, g) == Lookup(u.groups, g)
      ensures Resolved(Lookup(t.groups, g).value.spec, t.policies) == Resolved(Lookup(u.groups, g).value.spec, u.policies)
    {
      LookupPermutation(t.groups, u.groups, g);
      ResolvePermutation(Lookup(t.groups, g).value.spec, t.policies, u.policies);
    }
  }

  // ---- modes ----

  lemma {:induction false} OverrideValid(os: seq<Override>, cluster: string, j: nat)
    requires j <= |os| && forall o :: o in os ==> ValidMode(o.enforcementMode)
    ensures ValidMode(LastOverride(os, cluster, j))
  {
    if j > 0 && os[j - 1].cluster != cluster { OverrideValid(os, cluster, j - 1); }
  }

  lemma EffectiveValid(t: Tables, ds: seq<Distribution>, g: PolicyGroup, p: string)
    requires ValidModes(t, ds) && g in t.groups
    ensures var m := Effective(g.spec, t.policies, p); m.Some? ==> ValidMode(m.value.enforcementMode)
  {
  }

  lemma ContributionValid(t: Tables, c: Cluster, ds: seq<Distribution>, d: Distribution, g: string, p: string)
    requires ValidModes(t, ds) && d in ds
    ensures var m := Contribution(ResolveGroups(t), c, d, g, p); m.Some? ==> ValidMode(m.value)
  {
    var m := Contribution(ResolveGroups(t), c, d, g, p);
    if m.Some? {
      ContributionExact(t, c, d, g, p, m.value);
      OverrideValid(d.spec.overrides, c.name, |d.spec.overrides|);
      EffectiveValid(t, ds, Lookup(t.groups, g).value, p);
    }
  }

  /** Some distribution asks for enforce, or those that ask for a set mode all ask for the same. */
  ghost predicate Agreeing(a: Modes, c: Cluster, ds: seq<Distribution>, g: string, p: string) {
    || (exists d :: d in ds && Contribution(a, c, d, g, p) == Some(MODE_ENFORCE))
    || (forall d, e :: d in ds && e in ds && Sets(a, c, d, g, p) && Sets(a, c, e, g, p) ==>
          Contribution(a, c, d, g, p) == Contribution(a, c, e, g, p))
  }

  predicate Sets(a: Modes, c: Cluster, d: Distribution, g: string, p: string) {
    Contribution(a, c, d, g, p).Some? && Contribution(a, c, d, g, p).value != ""
  }

  /** Unset, audit and enforce always agree. */
  lemma ValidModesAgree(t: Tables, c: Cluster, ds: seq<Distribution>, g: string, p: string)
    requires ValidModes(t, ds)
    ensures Agreeing(ResolveGroups(t), c, ds, g, p)
  {
    forall d | d in ds ensures var m := Contribution(ResolveGroups(t), c, d, g, p); m.Some? ==> ValidMode(m.value) {
      ContributionValid(t, c, ds, d, g, p);
    }
  }

  /** The distribution a rendered mode comes from. */
  lemma ModeFrom(a: Modes, c: Cluster, ds: seq<Distribution>, g: string, p: string) returns (d: Distribution)
    requires RenderedMode(a, c, ds, g, p).Some?
    ensures d in ds && Contribution(a, c, d, g, p) == RenderedMode(a, c, ds, g, p)
  {
    ModeIsStrictest(a, c, ds, g, p, |ds|);
    var i :| 0 <= i < |ds| && Contribution(a, c, ds[i], g, p) == RenderedMode(a, c, ds, g, p);
    d := ds[i];
  }

  lemma EnforceWins(a: Modes, c: Cluster, ds: seq<Distribution>, g: string, p: string, d: Distribution)
    requires d in ds && Contribution(a, c, d, g, p) == Some(MODE_ENFORCE)
    ensures RenderedMode(a, c, ds, g, p) == Some(MODE_ENFORCE)
  {
    ModeIsStrictest(a, c, ds, g, p, |ds|);
    var i := Found(d, ds);
  }

  lemma ModePermutation(a: Modes, c: Cluster, ds: seq<Distribution>, es: seq<Distribution>, g: string, p: string)
    requires Agreeing(a, c, ds, g, p) && multiset(ds) == multiset(es)
    ensures RenderedMode(a, c, ds, g, p) == RenderedMode(a, c, es, g, p)
  {
    SameElements(ds, es);
    if d :| d in ds && Contribution(a, c, d, g, p) == Some(MODE_ENFORCE) {
      EnforceWins(a, c, ds, g, p, d);
      EnforceWins(a, c, es, g, p, d);
    } else {
      if RenderedMode(a, c, ds, g, p).Some? {
        ModeNotWeaker(a, c, ds, es, g, p);
        var d := ModeFrom(a, c, ds, g, p);
      }
      if RenderedMode(a, c, es, g, p).Some? {
        ModeNotWeaker(a, c, es, ds, g, p);
        var e := ModeFrom(a, c, es, g, p);
      }
    }
  }

  /** Without enforce, a set mode in front decides. */
  lemma {:induction false} FrontDecides(a: Modes, c: Cluster, es: seq<Distribution>, g: string, p: string, j: nat)
    requires 0 < j <= |es| && Sets(a, c, es[0], g, p)
    requires forall e :: e in es ==> Contribution(a, c, e, g, p) != Some(MODE_ENFORCE)
    ensures RenderedMode(a, c, es, g, p, j) == Contribution(a, c, es[0], g, p)
  {
    assert es[j - 1] in es;
    if j > 1 { FrontDecides(a, c, es, g, p, j - 1); } else { assert RenderedMode(a, c, es, g, p, 0) == None; }
  }

  function InFront(ds: seq<Distribution>, i: nat): seq<Distribution>
    requires i < |ds|
  {
    [ds[i]] + ds[..i] + ds[i + 1..]
  }

  lemma InFrontPermutes(ds: seq<Distribution>, i: nat)
    requires i < |ds|
    ensures multiset(InFront(ds, i)) == multiset(ds)
  {
    assert ds == ds[..i] + [ds[i]] + ds[i + 1..];
  }

  /** Where the distributions do not agree, some order renders another mode. */
  lemma Disagreement(a: Modes, c: Cluster, ds: seq<Distribution>, g: string, p: string) returns (es: seq<Distribution>)
    requires !Agreeing(a, c, ds, g, p)
    ensures multiset(es) == multiset(ds) && RenderedMode(a, c, es, g, p) != RenderedMode(a, c, ds, g, p)
  {
    var d, e :| d in ds && e in ds && Sets(a, c, d, g, p) && Sets(a, c, e, g, p) && Contribution(a, c, d, g, p) != Contribution(a, c, e, g, p);
    var i := Found(d, ds);
    var j := Found(e, ds);
    InFrontMode(a, c, ds, g, p, i);
    InFrontMode(a, c, ds, g, p, j);
    es := if RenderedMode(a, c, ds, g, p) == Contribution(a, c, d, g, p) then InFront(ds, j) else InFront(ds, i);
  }

  lemma InFrontMode(a: Modes, c: Cluster, ds: seq<Distribution>, g: string, p: string, i: nat)
    requires i < |ds| && Sets(a, c, ds[i], g, p)
    requires forall e :: e in ds ==> Contribution(a, c, e, g, p) != Some(MODE_ENFORCE)
    ensures multiset(InFront(ds, i)) == multiset(ds)
    ensures RenderedMode(a, c, InFront(ds, i), g, p) == Contribution(a, c, ds[i], g, p)
  {
    var es := InFront(ds, i);
    InFrontPermutes(ds, i);
    SameElements(es, ds);
    FrontDecides(a, c, es, g, p, |es|);
  }

  ghost predicate AllAgree(t: Tables, c: Cluster, ds: seq<Distribution>) {
    forall g, p :: Agreeing(ResolveGroups(t), c, ds, g, p)
  }

  lemma AllModesPermutation(t: Tables, c: Cluster, ds: seq<Distribution>, es: seq<Distribution>)
    requires AllAgree(t, c, ds) && multiset(ds) == multiset(es)
    ensures AllModes(ResolveGroups(t), c, ds) == AllModes(ResolveGroups(t), c, es)
  {
    var a := ResolveGroups(t);
    SameElements(ds, es);
    forall g | g in a
      ensures RendersGroup(a, c, ds, g) == RendersGroup(a, c, es, g)
      ensures GroupModes(a, c, ds, g) == GroupModes(a, c, es, g)
    {
      if RendersGroup(a, c, ds, g) { RendersMore(a, c, ds, es, g); }
      if RendersGroup(a, c, es, g) { RendersMore(a, c, es, ds, g); }
      forall p ensures RenderedMode(a, c, ds, g, p) == RenderedMode(a, c, es, g, p) {
        assert Agreeing(a, c, ds, g, p);
        ModePermutation(a, c, ds, es, g, p);
      }
    }
  }

  lemma NeededPermutation(a: Modes, c: Cluster, ds: seq<Distribution>, es: seq<Distribution>)
    requires multiset(ds) == multiset(es)
    ensures NeededPolicies(a, c, ds) == NeededPolicies(a, c, es)
    ensures NeededExceptions(c, ds) == NeededExceptions(c, es)
  {
    SameElements(ds, es);
    forall p ensures p in NeededPolicies(a, c, ds) <==> p in NeededPolicies(a, c, es) {
      if p in NeededPolicies(a, c, ds) { NeededMore(a, c, ds, es, p); }
      if p in NeededPolicies(a, c, es) { NeededMore(a, c, es, ds, p); }
    }
    forall e ensures e in NeededExceptions(c, ds) <==> e in NeededExceptions(c, es) {
      if e in NeededExceptions(c, ds) { NeededExceptionsMore(c, ds, es, e); }
      if e in NeededExceptions(c, es) { NeededExceptionsMore(c, es, ds, e); }
    }
  }

  lemma ObjectsPermutation(c: Cluster, t: Tables, u: Tables, ds: seq<Distribution>, es: seq<Distribution>)
    requires Permuted(t, u) && AllAgree(t, c, ds) && multiset(ds) == multiset(es)
    ensures Objects(t, c, ds) == Objects(u, c, es)
  {
    var a := ResolveGroups(t);
    ResolvePermutedGroups(t, u);
    NeededPermutation(a, c, ds, es);
    AllModesPermutation(t, c, ds, es);
    NamesPermutation(t.groups, u.groups);
    ChosenPermutation(t.groups, u.groups, ObjectNames(t.groups));
    ChosenPermutation(t.policies, u.policies, NeededPolicies(a, c, ds));
    ChosenPermutation(t.exceptions, u.exceptions, NeededExceptions(c, ds));
  }

  // ---- matched names ----

  function MatchedBag(c: Cluster, d: Distribution): multiset<string> {
    if d.spec.deleted || DistMatches(d, c).Miss? then multiset{} else multiset{d.name}
  }

  function MatchedBags(c: Cluster, ds: seq<Distribution>, j: nat := |ds|): multiset<string>
    requires j <= |ds|
  {
    if j == 0 then multiset{} else MatchedBags(c, ds, j - 1) + MatchedBag(c, ds[j - 1])
  }

  lemma {:induction false} MatchedNamesBags(c: Cluster, ds: seq<Distribution>, j: nat)
    requires j <= |ds|
    ensures multiset(MatchedNames(c, ds, j)) == MatchedBags(c, ds, j)
  {
    if j > 0 { MatchedNamesBags(c, ds, j - 1); }
  }

  lemma {:induction false} BagsPrefix(c: Cluster, ds: seq<Distribution>, es: seq<Distribution>, j: nat)
    requires j <= |ds| && j <= |es| && forall i :: 0 <= i < j ==> ds[i] == es[i]
    ensures MatchedBags(c, ds, j) == MatchedBags(c, es, j)
  {
    if j > 0 { BagsPrefix(c, ds, es, j - 1); }
  }

  lemma {:induction false} BagsRemove(c: Cluster, es: seq<Distribution>, rest: seq<Distribution>, k: nat, j: nat)
    requires k < j <= |es| && |rest| == |es| - 1
    requires forall i :: 0 <= i < k ==> rest[i] == es[i]
    requires forall i :: k <= i < |rest| ==> rest[i] == es[i + 1]
    ensures MatchedBags(c, es, j) == MatchedBags(c, rest, j - 1) + MatchedBag(c, es[k])
  {
    if j == k + 1 {
      BagsPrefix(c, es, rest, k);
    } else {
      assert rest[j - 2] == es[j - 1];
      BagsRemove(c, es, rest, k, j - 1);
    }
  }

  lemma BagsCut(c: Cluster, ds: seq<Distribution>, k: nat)
    requires k < |ds|
    ensures MatchedBags(c, ds) == MatchedBags(c, Cut(ds, k)) + MatchedBag(c, ds[k])
  {
    CutAt(ds, k);
    BagsRemove(c, ds, Cut(ds, k), k, |ds|);
  }

  lemma {:induction false} BagsPermutation(c: Cluster, ds: seq<Distribution>, es: seq<Distribution>)
    requires multiset(ds) == multiset(es)
    ensures MatchedBags(c, ds) == MatchedBags(c, es)
    decreases |ds|
  {
    if ds == [] {
      assert |multiset(es)| == 0;
    } else {
      var k := SameHead(ds, es);
      BagsPermutation(c, Cut(ds, 0), Cut(es, k));
      BagsCut(c, ds, 0);
      BagsCut(c, es, k);
    }
  }

  lemma MatchedPermutation(c: Cluster, ds: seq<Distribution>, es: seq<Distribution>)
    requires multiset(ds) == multiset(es)
    ensures SortNames(MatchedNames(c, ds)) == SortNames(MatchedNames(c, es))
  {
    BagsPermutation(c, ds, es);
    MatchedNamesBags(c, ds, |ds|);
    MatchedNamesBags(c, es, |es|);
    SortNamesPermutation(MatchedNames(c, ds), MatchedNames(c, es));
  }

  // ---- errors ----

  lemma {:induction false} FailuresPermutation(t: Tables, u: Tables, names: seq<string>, j: nat)
    requires Permuted(t, u) && j <= |names|
    ensures MissingGroups(t, names, j) == MissingGroups(u, names, j)
    ensures MissingExceptions(t, names, j) == MissingExceptions(u, names, j)
  {
    NamesPermutation(t.groups, u.groups);
    NamesPermutation(t.exceptions, u.exceptions);
    if j > 0 { FailuresPermutation(t, u, names, j - 1); }
  }

  /** With unique names, a distribution's entry holds its own failures. */
  lemma {:induction false} ErrorAt(t: Tables, c: Cluster, ds: seq<Distribution>, n: string, j: nat)
    requires UniqueNames(ds) && j <= |ds|
    ensures n in ErrorMap(t, c, ds, j) <==> exists i :: 0 <= i < j && ds[i].name == n && Failures(t, c, ds[i]) != []
    ensures forall i :: 0 <= i < j && ds[i].name == n && Failures(t, c, ds[i]) != [] ==>
              Get(ErrorMap(t, c, ds, j), n) == Some(Failures(t, c, ds[i]))
  {
    if j > 0 {
      ErrorAt(t, c, ds, n, j - 1);
      assert ds[j - 1] in ds;
    }
  }

  lemma FailuresSame(t: Tables, u: Tables, c: Cluster, d: Distribution)
    requires Permuted(t, u)
    ensures Failures(t, c, d) == Failures(u, c, d)
  {
    FailuresPermutation(t, u, d.spec.policyGroups, |d.spec.policyGroups|);
    FailuresPermutation(t, u, d.spec.policyExceptions, |d.spec.policyExceptions|);
  }

  lemma ErrorMore(t: Tables, u: Tables, c: Cluster, ds: seq<Distribution>, es: seq<Distribution>, n: string)
    requires Permuted(t, u) && UniqueNames(ds) && UniqueNames(es) && forall d :: d in ds ==> d in es
    requires n in ErrorMap(t, c, ds)
    ensures Get(ErrorMap(u, c, es), n) == Some(ErrorMap(t, c, ds)[n])
  {
    ErrorAt(t, c, ds, n, |ds|);
    ErrorAt(u, c, es, n, |es|);
    var i :| 0 <= i < |ds| && ds[i].name == n && Failures(t, c, ds[i]) != [];
    var d := ds[i];
    FailuresSame(t, u, c, d);
    var k := Found(d, es);
  }

  lemma ErrorPermutation(t: Tables, u: Tables, c: Cluster, ds: seq<Distribution>, es: seq<Distribution>)
    requires Permuted(t, u) && Permuted(u, t) && UniqueNames(ds) && multiset(ds) == multiset(es)
    ensures ErrorMap(t, c, ds) == ErrorMap(u, c, es)
  {
    SameElements(ds, es);
    forall n ensures Get(ErrorMap(t, c, ds), n) == Get(ErrorMap(u, c, es), n) {
      if n in ErrorMap(t, c, ds) { ErrorMore(t, u, c, ds, es, n); }
      if n in ErrorMap(u, c, es) { ErrorMore(u, t, c, es, ds, n); }
    }
    SameMap(ErrorMap(t, c, ds), ErrorMap(u, c, es));
  }

  lemma PermutedBack(t: Tables, u: Tables)
    requires Permuted(t, u)
    ensures Permuted(u, t)
  {
    SameElements(t.groups, u.groups);
    SameElements(t.policies, u.policies);
    SameElements(t.exceptions, u.exceptions);
  }

  lemma SnapshotPermutation(
    c: Cluster, t: Tables, u: Tables, ds: seq<Distribution>, es: seq<Distribution>, digest: seq<ManagedObject> -> string)
    requires Permuted(t, u) && AllAgree(t, c, ds)
    requires UniqueNames(ds) && multiset(ds) == multiset(es)
    ensures Snapshot(c, ds, t, digest) == Snapshot(c, es, u, digest)
  {
    ObjectsPermutation(c, t, u, ds, es);
    MatchedPermutation(c, ds, es);
    PermutedBack(t, u);
    ErrorPermutation(t, u, c, ds, es);
  }

  /** Permuting the distributions, groups, policies and exceptions changes nothing in the result. */
  lemma OrderIndependence(
    c: Cluster, t: Tables, u: Tables, ds: seq<Distribution>, es: seq<Distribution>, digest: seq<ManagedObject> -> string)
    requires Permuted(t, u) && ValidModes(t, ds)
    requires UniqueNames(ds) && multiset(ds) == multiset(es)
    ensures Snapshot(c, ds, t, digest) == Snapshot(c, es, u, digest)
  {
    forall g, p ensures Agreeing(ResolveGroups(t), c, ds, g, p) { ValidModesAgree(t, c, ds, g, p); }
    SnapshotPermutation(c, t, u, ds, es, digest);
  }

  /** The objects of a snapshot show every rendered mode. */
  lemma ObjectShowsMode(t: Tables, c: Cluster, ds: seq<Distribution>, es: seq<Distribution>, g: string, p: string)
    returns (o: ManagedObject)
    requires RenderedMode(ResolveGroups(t), c, ds, g, p).Some?
    requires RenderedMode(ResolveGroups(t), c, es, g, p) != RenderedMode(ResolveGroups(t), c, ds, g, p)
    ensures o in Objects(t, c, ds) && o !in Objects(t, c, es)
  {
    var a := ResolveGroups(t);
    RendersKnown(a, c, ds, g, p, |ds|);
    GroupObjectAppears(t, c, ds, g);
    o := GroupObjectFor(t, c, ds, g);
    RefsLookup(GroupModes(a, c, ds, g), p);
    RefsLookup(GroupModes(a, c, es, g), p);
    if o in Objects(t, c, es) { GroupObjectIs(t, c, es, o); }
  }

  /** With any modes at all: the result is the same for every order of every list, exactly when for
      each policy of each group some distribution asks for enforce or all set modes asked for are equal. */
  lemma OrderIndependenceExactly(c: Cluster, t: Tables, ds: seq<Distribution>, digest: seq<ManagedObject> -> string)
    requires UniqueNames(ds) && UniqueNames(t.groups) && UniqueNames(t.policies) && UniqueNames(t.exceptions)
    ensures
      (forall u, es :: Permuted(t, u) && multiset(ds) == multiset(es) ==> Snapshot(c, ds, t, digest) == Snapshot(c, es, u, digest)) <==>
      AllAgree(t, c, ds)
  {
    if AllAgree(t, c, ds) {
      forall u, es | Permuted(t, u) && multiset(ds) == multiset(es) ensures Snapshot(c, ds, t, digest) == Snapshot(c, es, u, digest) {
        SnapshotPermutation(c, t, u, ds, es, digest);
      }
    } else {
      var g, p :| !Agreeing(ResolveGroups(t), c, ds, g, p);
      var es := Disagreement(ResolveGroups(t), c, ds, g, p);
      var o := SomeObjectDiffers(t, c, ds, es, g, p);
      DifferenceShows(t, c, ds, es, digest, o);
      assert Permuted(t, t);
    }
  }

  lemma DifferenceShows(
    t: Tables, c: Cluster, ds: seq<Distribution>, es: seq<Distribution>, digest: seq<ManagedObject> -> string, o: ManagedObject)
    requires o in Objects(t, c, ds) <==> o !in Objects(t, c, es)
    ensures Snapshot(c, ds, t, digest) != Snapshot(c, es, t, digest)
  {
    SnapshotHolds(c, ds, t, digest, o);
    SnapshotHolds(c, es, t, digest, o);
    Apart(Snapshot(c, ds, t, digest), Snapshot(c, es, t, digest), o);
  }

  lemma Apart(r: RenderResult, q: RenderResult, o: ManagedObject)
    requires o in r.objects <==> o !in q.objects
    ensures r != q
  {
  }

  lemma SomeObjectDiffers(t: Tables, c: Cluster, ds: seq<Distribution>, es: seq<Distribution>, g: string, p: string)
    returns (o: ManagedObject)
    requires RenderedMode(ResolveGroups(t), c, es, g, p) != RenderedMode(ResolveGroups(t), c, ds, g, p)
    ensures o in Objects(t, c, ds) <==> o !in Objects(t, c, es)
  {
    if RenderedMode(ResolveGroups(t), c, ds, g, p).Some? {
      o := ObjectShowsMode(t, c, ds, es, g, p);
    } else {
      o := ObjectShowsMode(t, c, es, ds, g, p);
    }
  }

  lemma SnapshotHolds(c: Cluster, ds: seq<Distribution>, t: Tables, digest: seq<ManagedObject> -> string, o: ManagedObject)
    ensures o in Snapshot(c, ds, t, digest).objects <==> o in Objects(t, c, ds)
  {
  }
}
