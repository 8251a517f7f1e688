/** The snapshot compiler: distributions, groups, policies and exceptions
    flattened into the objects one cluster must hold. */
module Render {
  import opened Names
  import opened GroupResolve

  const MANAGED_BY_LABEL := "kubesentry.io/managed-by"
  const MANAGED_BY_PLATFORM := "platform"

  datatype Cluster = Cluster(name: string, labels: Labels)
  datatype Override = Override(cluster: string, enforcementMode: string)
  datatype DistributionSpec = DistributionSpec(
    deleted: bool,
    byName: seq<string>,
    clusterSelector: Option<Selector>,
    overrides: seq<Override>,
    policyGroups: seq<string>,
    policyExceptions: seq<string>)

  type Distribution = Object<DistributionSpec>
  type PolicyGroup = Object<PolicyGroupSpec>
  type PolicyException = Object<string>

  /** The tables a snapshot is compiled from, beside the distributions. */
  datatype Tables = Tables(
    groups: seq<PolicyGroup>,
    policies: seq<Policy>,
    exceptions: seq<PolicyException>)

  datatype ManagedObject =
    | PolicyObject(name: string, labels: Labels, policy: PolicySpec)
    | GroupObject(name: string, labels: Labels, group: PolicyGroupSpec)
    | ExceptionObject(name: string, labels: Labels, exception: string)

  datatype RenderError =
    | InvalidClusterSelector(error: string)
    | GroupNotFound(name: string)
    | ExceptionNotFound(name: string)

  datatype RenderResult = RenderResult(
    hash: string,
    objects: seq<ManagedObject>,
    matched: seq<string>,
    errors: map<string, seq<RenderError>>)

  datatype Match = Hit | Miss | Bad(error: string)

  /** `distMatches`: byName ∪ clusterSelector. */
  function DistMatches(d: Distribution, c: Cluster): Match {
    if c.name in d.spec.byName then Hit
    else match d.spec.clusterSelector
      case None => Miss
      case Some(Malformed(error)) => Bad(error)
      case Some(Valid(f)) => if f(c.labels) then Hit else Miss
  }

  /** `stricter`: enforce wins, an unset mode gives way. */
  function Stricter(a: string, b: string): string {
    if a == MODE_ENFORCE || b == MODE_ENFORCE then MODE_ENFORCE
    else OrElse(a, b)
  }

  function WithManaged(labels: Labels): Labels {
    labels[MANAGED_BY_LABEL := MANAGED_BY_PLATFORM]
  }

  /** The last override naming the cluster; unset when there is none. */
  function LastOverride(os: seq<Override>, cluster: string, j: nat := |os|): string
    requires j <= |os|
  {
    if j == 0 then ""
    else if os[j - 1].cluster == cluster then os[j - 1].enforcementMode
    else LastOverride(os, cluster, j - 1)
  }

  predicate Active(d: Distribution, c: Cluster) {
    !d.spec.deleted && DistMatches(d, c).Hit?
  }

  /** Group name to member name to mode. */
  type Modes = map<string, map<string, string>>

  function ModesOf(resolved: map<string, EffectiveMember>): map<string, string> {
    map n | n in resolved :: resolved[n].enforcementMode
  }

  /** Per group the tables hold and enable: its members and their resolved modes. */
  ghost function ResolveGroups(t: Tables): Modes {
    map g | g in ObjectNames(t.groups) && Lookup(t.groups, g).value.spec.enabled ::
      ModesOf(Resolved(Lookup(t.groups, g).value.spec, t.policies))
  }

  predicate Lists(a: Modes, c: Cluster, d: Distribution, g: string, j: nat := |d.spec.policyGroups|)
    requires j <= |d.spec.policyGroups|
  {
    Active(d, c) && g in a && g in Elements(d.spec.policyGroups, j)
  }

  function Asked(modes: map<string, string>, override: string, p: string): Option<string> {
    if p in modes then Some(OrElse(override, modes[p])) else None
  }

  /** The mode one distribution asks for one policy of one group. */
  function Contribution(a: Modes, c: Cluster, d: Distribution, g: string, p: string, j: nat := |d.spec.policyGroups|): Option<string>
    requires j <= |d.spec.policyGroups|
  {
    if Lists(a, c, d, g, j) then Asked(a[g], LastOverride(d.spec.overrides, c.name), p) else None
  }

  function Join(a: Option<string>, b: Option<string>): Option<string> {
    if a.None? then b else if b.None? then a else Some(Stricter(a.value, b.value))
  }

  /** The strictest mode over the distributions, in list order. */
  function RenderedMode(a: Modes, c: Cluster, ds: seq<Distribution>, g: string, p: string, j: nat := |ds|): Option<string>
    requires j <= |ds|
  {
    if j == 0 then None
    else Join(RenderedMode(a, c, ds, g, p, j - 1), Contribution(a, c, ds[j - 1], g, p))
  }

  predicate RendersGroup(a: Modes, c: Cluster, ds: seq<Distribution>, g: string, j: nat := |ds|)
    requires j <= |ds|
  {
    j > 0 && (RendersGroup(a, c, ds, g, j - 1) || Lists(a, c, ds[j - 1], g))
  }

  /** The members of the enabled groups a distribution lists. */
  function Members(a: Modes, d: Distribution, j: nat := |d.spec.policyGroups|): set<string>
    requires j <= |d.spec.policyGroups|
  {
    if j == 0 then {}
    else
      var g := d.spec.policyGroups[j - 1];
      if g in a then Members(a, d, j - 1) + a[g].Keys else Members(a, d, j - 1)
  }

  function NeededPolicies(a: Modes, c: Cluster, ds: seq<Distribution>, j: nat := |ds|): set<string>
    requires j <= |ds|
  {
    if j == 0 then {}
    else if Active(ds[j - 1], c) then NeededPolicies(a, c, ds, j - 1) + Members(a, ds[j - 1])
    else NeededPolicies(a, c, ds, j - 1)
  }

  function NeededExceptions(c: Cluster, ds: seq<Distribution>, j: nat := |ds|): set<string>
    requires j <= |ds|
  {
    if j == 0 then {}
    else if Active(ds[j - 1], c) then NeededExceptions(c, ds, j - 1) + Elements(ds[j - 1].spec.policyExceptions)
    else NeededExceptions(c, ds, j - 1)
  }

  ghost function GroupModes(a: Modes, c: Cluster, ds: seq<Distribution>, g: string): map<string, string>
    requires g in a
  {
    map p | p in a[g] && RenderedMode(a, c, ds, g, p).Some? :: RenderedMode(a, c, ds, g, p).value
  }

  /** Every rendered group with its members' modes. */
  ghost function AllModes(a: Modes, c: Cluster, ds: seq<Distribution>): Modes {
    map g | g in a && RendersGroup(a, c, ds, g) :: GroupModes(a, c, ds, g)
  }

  /** The listed objects whose names are among `keys`. */
  ghost function Chosen<S>(listed: seq<Object<S>>, keys: set<string>): map<string, Object<S>> {
    map n | n in ObjectNames(listed) && n in keys :: Lookup(listed, n).value
  }

  ghost function Refs(modes: map<string, string>): seq<PolicyRef> {
    SortedValues(map n | n in modes :: PolicyRef(n, modes[n]))
  }

  /** A group's spec with its members spelled out. */
  function Flattened(spec: PolicyGroupSpec, refs: seq<PolicyRef>): PolicyGroupSpec {
    spec.(policies := PolicyGroupPolicies(refs, None, []), selectorEnforcementMode := "")
  }

  ghost function PolicyObjects(chosen: map<string, Policy>): map<string, ManagedObject> {
    map n | n in chosen :: PolicyObject(n, WithManaged(chosen[n].labels), chosen[n].spec)
  }

  ghost function GroupObjects(source: map<string, PolicyGroup>, rendered: Modes): map<string, ManagedObject> {
    map n | n in rendered && n in source ::
      GroupObject(n, WithManaged(source[n].labels), Flattened(source[n].spec, Refs(rendered[n])))
  }

  ghost function ExceptionObjects(chosen: map<string, PolicyException>): map<string, ManagedObject> {
    map n | n in chosen :: ExceptionObject(n, WithManaged(chosen[n].labels), chosen[n].spec)
  }

  /** Policies first, then groups, then exceptions, each sorted by name. */
  ghost function Objects(t: Tables, c: Cluster, ds: seq<Distribution>): seq<ManagedObject> {
    var a := ResolveGroups(t);
    SortedValues(PolicyObjects(Chosen(t.policies, NeededPolicies(a, c, ds)))) +
    SortedValues(GroupObjects(Chosen(t.groups, ObjectNames(t.groups)), AllModes(a, c, ds))) +
    SortedValues(ExceptionObjects(Chosen(t.exceptions, NeededExceptions(c, ds))))
  }

  /** Distributions with a malformed cluster selector count as matched: they get an Error row. */
  function MatchedNames(c: Cluster, ds: seq<Distribution>, j: nat := |ds|): seq<string>
    requires j <= |ds|
  {
    if j == 0 then []
    else
      var before := MatchedNames(c, ds, j - 1);
      if ds[j - 1].spec.deleted || DistMatches(ds[j - 1], c).Miss? then before else before + [ds[j - 1].name]
  }

  function MissingGroups(t: Tables, names: seq<string>, j: nat := |names|): seq<RenderError>
    requires j <= |names|
  {
    if j == 0 then []
    else
      var before := MissingGroups(t, names, j - 1);
      if names[j - 1] in ObjectNames(t.groups) then before else before + [GroupNotFound(names[j - 1])]
  }

  function MissingExceptions(t: Tables, names: seq<string>, j: nat := |names|): seq<RenderError>
    requires j <= |names|
  {
    if j == 0 then []
    else
      var before := MissingExceptions(t, names, j - 1);
      if names[j - 1] in ObjectNames(t.exceptions) then before else before + [ExceptionNotFound(names[j - 1])]
  }

  /** What a distribution reports; empty when it renders cleanly or does not target the cluster. */
  function Failures(t: Tables, c: Cluster, d: Distribution): seq<RenderError> {
    if d.spec.deleted then []
    else match DistMatches(d, c)
      case Miss => []
      case Bad(error) => [InvalidClusterSelector(error)]
      case Hit => MissingGroups(t, d.spec.policyGroups) + MissingExceptions(t, d.spec.policyExceptions)
  }

  function ErrorMap(t: Tables, c: Cluster, ds: seq<Distribution>, j: nat := |ds|): map<string, seq<RenderError>>
    requires j <= |ds|
  {
    if j == 0 then map[]
    else
      var rest := ErrorMap(t, c, ds, j - 1);
      if Failures(t, c, ds[j - 1]) == [] then rest else rest[ds[j - 1].name := Failures(t, c, ds[j - 1])]
  }

  /** The snapshot as a function of its inputs; `digest` is the JSON and SHA-256 of the object list. */
  ghost function Snapshot(c: Cluster, ds: seq<Distribution>, t: Tables, digest: seq<ManagedObject> -> string): RenderResult {
    RenderResult(
      digest(Objects(t, c, ds)), Objects(t, c, ds), SortNames(MatchedNames(c, ds)), ErrorMap(t, c, ds))
  }

  // ---- the renderer's loops, innermost first ----

  /** The list holds every resolved member, under its own name. */
  ghost predicate ListsMembers(members: seq<EffectiveMember>, resolved: map<string, EffectiveMember>) {
    && (forall m :: m in members ==> m.name in resolved && m == resolved[m.name])
    && (forall n :: n in resolved ==> resolved[n] in members && resolved[n].name == n)
  }

  /** `modes'` is `modes` with what is asked for the names in `done` joined in. */
  ghost predicate Merged(
    modes: map<string, string>, modes': map<string, string>, asked: map<string, string>, override: string, done: set<string>)
  {
    forall p :: Get(modes', p) == Join(Get(modes, p), if p in done then Asked(asked, override, p) else None)
  }

  lemma MergedStep(
    modes: map<string, string>, before: map<string, string>, asked: map<string, string>, override: string,
    done: set<string>, n: string)
    requires Merged(modes, before, asked, override, done) && n in asked
    ensures Merged(modes,
              before[n := Stricter(if n in before then before[n] else "", OrElse(override, asked[n]))],
              asked, override, done + {n})
  {
    var after := before[n := Stricter(if n in before then before[n] else "", OrElse(override, asked[n]))];
    forall p ensures Get(after, p) == Join(Get(modes, p), if p in done + {n} then Asked(asked, override, p) else None) {
      assert Get(before, p) == Join(Get(modes, p), if p in done then Asked(asked, override, p) else None);
    }
  }

  /** One group's modes with everything asked for it joined in. */
  function Merge(modes: map<string, string>, asked: map<string, string>, override: string): map<string, string> {
    map p | p in modes.Keys + asked.Keys :: Join(Get(modes, p), Asked(asked, override, p)).value
  }

  lemma MergedAll(modes: map<string, string>, modes': map<string, string>, asked: map<string, string>, override: string)
    requires Merged(modes, modes', asked, override, asked.Keys)
    ensures modes' == Merge(modes, asked, override)
  {
    forall p ensures Get(modes', p) == Get(Merge(modes, asked, override), p) {
      assert Get(modes', p) == Join(Get(modes, p), Asked(asked, override, p));
    }
    SameMap(modes', Merge(modes, asked, override));
  }

  /** `needed` with the entries of `source` named in `done` copied in. */
  function Mark<V>(needed: map<string, V>, source: map<string, V>, done: set<string>): map<string, V> {
    map p | p in needed.Keys + done * source.Keys :: if p in done * source.Keys then source[p] else needed[p]
  }

  lemma MarkStep<V>(needed: map<string, V>, source: map<string, V>, done: set<string>, n: string)
    ensures n in source ==> Mark(needed, source, done)[n := source[n]] == Mark(needed, source, done + {n})
    ensures n !in source ==> Mark(needed, source, done) == Mark(needed, source, done + {n})
  {
  }

  lemma MarkNone<V>(needed: map<string, V>, source: map<string, V>)
    ensures Mark(needed, source, {}) == needed
  {
  }

  lemma MarkTwice<V>(needed: map<string, V>, source: map<string, V>, x: set<string>, y: set<string>)
    ensures Mark(Mark(needed, source, x), source, y) == Mark(needed, source, x + y)
  {
  }

  /** What the first `j` groups of an active distribution turn `rendered` into. */
  function AddDist(a: Modes, c: Cluster, d: Distribution, rendered: Modes, j: nat := |d.spec.policyGroups|): Modes
    requires j <= |d.spec.policyGroups|
  {
    if j == 0 then rendered
    else
      var g := d.spec.policyGroups[j - 1];
      var before := AddDist(a, c, d, rendered, j - 1);
      if g !in a then before
      else before[g := Merge(if g in before then before[g] else map[], a[g], LastOverride(d.spec.overrides, c.name))]
  }

  function AddDists(a: Modes, c: Cluster, ds: seq<Distribution>, j: nat := |ds|): Modes
    requires j <= |ds|
  {
    if j == 0 then map[]
    else
      var before := AddDists(a, c, ds, j - 1);
      if Active(ds[j - 1], c) then AddDist(a, c, ds[j - 1], before) else before
  }

  lemma SortedValuesList(resolved: map<string, EffectiveMember>)
    requires forall n :: n in resolved ==> resolved[n].name == n
    ensures ListsMembers(SortedValues(resolved), resolved)
  {
    SortedValuesContents(resolved);
  }

  method FindOverride(os: seq<Override>, cluster: string) returns (mode: string)
    ensures mode == LastOverride(os, cluster)
  {
    mode := "";
    for i := 0 to |os|
      invariant mode == LastOverride(os, cluster, i)
    {
      if os[i].cluster == cluster {
        mode := os[i].enforcementMode;
      }
    }
  }

  /** The loop over one group's members: each is folded into the modes and marked needed. */
  method MergeMembers(
    members: seq<EffectiveMember>, ghost resolved: map<string, EffectiveMember>, override: string,
    policyByName: map<string, Policy>, modes: map<string, string>, needed: map<string, Policy>)
    returns (modes': map<string, string>, needed': map<string, Policy>)
    requires ListsMembers(members, resolved)
    ensures modes' == Merge(modes, ModesOf(resolved), override)
    ensures needed' == Mark(needed, policyByName, resolved.Keys)
  {
    ghost var done: set<string> := {};
    modes', needed' := modes, needed;
    for k := 0 to |members|
      invariant forall i :: 0 <= i < k ==> members[i].name in done
      invariant done <= resolved.Keys
      invariant Merged(modes, modes', ModesOf(resolved), override, done)
      invariant needed' == Mark(needed, policyByName, done)
    {
      var m := members[k];
      assert m in members;
      MergedStep(modes, modes', ModesOf(resolved), override, done, m.name);
      MarkStep(needed, policyByName, done, m.name);
      var mode := OrElse(override, m.enforcementMode);
      modes' := modes'[m.name := Stricter(if m.name in modes' then modes'[m.name] else "", mode)];
      if m.name in policyByName {
        needed' := needed'[m.name := policyByName[m.name]];
      }
      done := done + {m.name};
    }
    forall n | n in resolved.Keys ensures n in done { assert resolved[n] in members; }
    assert done == resolved.Keys == ModesOf(resolved).Keys;
    MergedAll(modes, modes', ModesOf(resolved), override);
  }

  /** One enabled group: resolve it and fold its members in. */
  method AddGroup(
    spec: PolicyGroupSpec, policies: seq<Policy>, override: string, policyByName: map<string, Policy>,
    modes: map<string, string>, needed: map<string, Policy>, ghost asked: map<string, string>)
    returns (modes': map<string, string>, needed': map<string, Policy>)
    requires asked == ModesOf(Resolved(spec, policies))
    ensures modes' == Merge(modes, asked, override)
    ensures needed' == Mark(needed, policyByName, asked.Keys)
  {
    var members, _ := Resolve(spec, policies);
    ghost var resolved := Resolved(spec, policies);
    SortedValuesList(resolved);
    modes', needed' := MergeMembers(members, resolved, override, policyByName, modes, needed);
    assert ModesOf(resolved).Keys == resolved.Keys;
  }

  /** The indexes agree with the tables. */
  ghost predicate Indexed(t: Tables, a: Modes, groupByName: map<string, PolicyGroup>) {
    && (forall g :: g in a <==> g in groupByName && groupByName[g].spec.enabled)
    && (forall g :: g in a ==> a[g] == ModesOf(Resolved(groupByName[g].spec, t.policies)))
    && groupByName.Keys == ObjectNames(t.groups)
  }

  /** The loop over one matching distribution's groups. */
  method AddGroups(
    c: Cluster, d: Distribution, t: Tables, ghost a: Modes,
    groupByName: map<string, PolicyGroup>, policyByName: map<string, Policy>, rendered: Modes, needed: map<string, Policy>)
    returns (rendered': Modes, needed': map<string, Policy>, errs: seq<RenderError>)
    requires Active(d, c)
    requires Indexed(t, a, groupByName)
    ensures rendered' == AddDist(a, c, d, rendered)
    ensures needed' == Mark(needed, policyByName, Members(a, d))
    ensures errs == MissingGroups(t, d.spec.policyGroups)
  {
    var override := FindOverride(d.spec.overrides, c.name);
    rendered', needed', errs := rendered, needed, [];
    MarkNone(needed, policyByName);
    for j := 0 to |d.spec.policyGroups|
      invariant rendered' == AddDist(a, c, d, rendered, j)
      invariant needed' == Mark(needed, policyByName, Members(a, d, j))
      invariant errs == MissingGroups(t, d.spec.policyGroups, j)
    {
      var gname := d.spec.policyGroups[j];
      if gname !in groupByName {
        errs := errs + [GroupNotFound(gname)];
      } else if groupByName[gname].spec.enabled {
        var modes := if gname in rendered' then rendered'[gname] else map[];
        var merged;
        merged, needed' := AddGroup(groupByName[gname].spec, t.policies, override, policyByName, modes, needed', a[gname]);
        MarkTwice(needed, policyByName, Members(a, d, j), a[gname].Keys);
        rendered' := rendered'[gname := merged];
      }
    }
  }

  /** The loop over one matching distribution's exceptions. */
  method AddExceptions(
    names: seq<string>, t: Tables, exceptionByName: map<string, PolicyException>, needed: map<string, PolicyException>)
    returns (needed': map<string, PolicyException>, errs: seq<RenderError>)
    requires exceptionByName.Keys == ObjectNames(t.exceptions)
    ensures needed' == Mark(needed, exceptionByName, Elements(names))
    ensures errs == MissingExceptions(t, names)
  {
    needed', errs := needed, [];
    MarkNone(needed, exceptionByName);
    for j := 0 to |names|
      invariant needed' == Mark(needed, exceptionByName, Elements(names, j))
      invariant errs == MissingExceptions(t, names, j)
    {
      MarkStep(needed, exceptionByName, Elements(names, j), names[j]);
      if names[j] !in exceptionByName {
        errs := errs + [ExceptionNotFound(names[j])];
      } else {
        needed' := needed'[names[j] := exceptionByName[names[j]]];
      }
    }
  }

  /** What the first `j` distributions put into the three maps. */
  ghost predicate Gathered(
    a: Modes, c: Cluster, ds: seq<Distribution>, policyByName: map<string, Policy>, exceptionByName: map<string, PolicyException>,
    rendered: Modes, needed: map<string, Policy>, neededExceptions: map<string, PolicyException>, j: nat)
    requires j <= |ds|
  {
    && rendered == AddDists(a, c, ds, j)
    && needed == Mark(map[], policyByName, NeededPolicies(a, c, ds, j))
    && neededExceptions == Mark(map[], exceptionByName, NeededExceptions(c, ds, j))
  }

  lemma MarkedMore(
    a: Modes, c: Cluster, ds: seq<Distribution>, policyByName: map<string, Policy>, exceptionByName: map<string, PolicyException>,
    needed: map<string, Policy>, neededExceptions: map<string, PolicyException>, i: nat)
    requires i < |ds| && Active(ds[i], c)
    requires needed == Mark(map[], policyByName, NeededPolicies(a, c, ds, i))
    requires neededExceptions == Mark(map[], exceptionByName, NeededExceptions(c, ds, i))
    ensures Mark(needed, policyByName, Members(a, ds[i])) == Mark(map[], policyByName, NeededPolicies(a, c, ds, i + 1))
    ensures Mark(neededExceptions, exceptionByName, Elements(ds[i].spec.policyExceptions)) ==
            Mark(map[], exceptionByName, NeededExceptions(c, ds, i + 1))
  {
    MarkTwice(map[], policyByName, NeededPolicies(a, c, ds, i), Members(a, ds[i]));
    MarkTwice(map[], exceptionByName, NeededExceptions(c, ds, i), Elements(ds[i].spec.policyExceptions));
  }

  lemma GatheredSkip(
    a: Modes, c: Cluster, ds: seq<Distribution>, policyByName: map<string, Policy>, exceptionByName: map<string, PolicyException>,
    rendered: Modes, needed: map<string, Policy>, neededExceptions: map<string, PolicyException>, i: nat)
    requires i < |ds| && !Active(ds[i], c)
    requires Gathered(a, c, ds, policyByName, exceptionByName, rendered, needed, neededExceptions, i)
    ensures Gathered(a, c, ds, policyByName, exceptionByName, rendered, needed, neededExceptions, i + 1)
  {
  }

  /** What one matching distribution adds. */
  method AddDistribution(
    c: Cluster, ds: seq<Distribution>, i: nat, t: Tables, ghost a: Modes,
    groupByName: map<string, PolicyGroup>, policyByName: map<string, Policy>, exceptionByName: map<string, PolicyException>,
    rendered: Modes, needed: map<string, Policy>, neededExceptions: map<string, PolicyException>)
    returns (rendered': Modes, needed': map<string, Policy>, neededExceptions': map<string, PolicyException>, errs: seq<RenderError>)
    requires Indexed(t, a, groupByName)
    requires exceptionByName.Keys == ObjectNames(t.exceptions)
    requires i < |ds| && Active(ds[i], c)
    requires Gathered(a, c, ds, policyByName, exceptionByName, rendered, needed, neededExceptions, i)
    ensures Gathered(a, c, ds, policyByName, exceptionByName, rendered', needed', neededExceptions', i + 1)
    ensures errs == MissingGroups(t, ds[i].spec.policyGroups) + MissingExceptions(t, ds[i].spec.policyExceptions)
  {
    var d := ds[i];
    var more;
    rendered', needed', errs := AddGroups(c, d, t, a, groupByName, policyByName, rendered, needed);
    neededExceptions', more := AddExceptions(d.spec.policyExceptions, t, exceptionByName, neededExceptions);
    MarkedMore(a, c, ds, policyByName, exceptionByName, needed, neededExceptions, i);
    errs := errs + more;
  }

  /** The names and errors noted over the first distributions. */
  ghost predicate Noted(t: Tables, c: Cluster, ds: seq<Distribution>, matched: seq<string>, errors: map<string, seq<RenderError>>, j: nat)
    requires j <= |ds|
  {
    matched == MatchedNames(c, ds, j) && errors == ErrorMap(t, c, ds, j)
  }

  lemma NotedMiss(t: Tables, c: Cluster, ds: seq<Distribution>, matched: seq<string>, errors: map<string, seq<RenderError>>, i: nat)
    requires i < |ds| && (ds[i].spec.deleted || DistMatches(ds[i], c).Miss?) && Noted(t, c, ds, matched, errors, i)
    ensures Noted(t, c, ds, matched, errors, i + 1)
  {
  }

  lemma NotedMatch(
    t: Tables, c: Cluster, ds: seq<Distribution>, matched: seq<string>, errors: map<string, seq<RenderError>>, errs: seq<RenderError>, i: nat)
    requires i < |ds| && !ds[i].spec.deleted && !DistMatches(ds[i], c).Miss? && Noted(t, c, ds, matched, errors, i)
    requires errs == Failures(t, c, ds[i])
    ensures Noted(t, c, ds, matched + [ds[i].name], if errs == [] then errors else errors[ds[i].name := errs], i + 1)
  {
  }

  /** The loop over the distributions. */
  method Collect(
    c: Cluster, ds: seq<Distribution>, t: Tables, ghost a: Modes,
    groupByName: map<string, PolicyGroup>, policyByName: map<string, Policy>, exceptionByName: map<string, PolicyException>)
    returns (rendered: Modes, needed: map<string, Policy>, neededExceptions: map<string, PolicyException>,
             matched: seq<string>, errors: map<string, seq<RenderError>>)
    requires Indexed(t, a, groupByName)
    requires exceptionByName.Keys == ObjectNames(t.exceptions)
    ensures rendered == AddDists(a, c, ds)
    ensures needed == Mark(map[], policyByName, NeededPolicies(a, c, ds))
    ensures neededExceptions == Mark(map[], exceptionByName, NeededExceptions(c, ds))
    ensures matched == MatchedNames(c, ds)
    ensures errors == ErrorMap(t, c, ds)
  {
    rendered, needed, neededExceptions, matched, errors := map[], map[], map[], [], map[];
    MarkNone(needed, policyByName);
    MarkNone(neededExceptions, exceptionByName);
    for i := 0 to |ds|
      invariant Gathered(a, c, ds, policyByName, exceptionByName, rendered, needed, neededExceptions, i)
      invariant Noted(t, c, ds, matched, errors, i)
    {
      var d := ds[i];
      var m := DistMatches(d, c);
      if d.spec.deleted || m.Miss? {
        NotedMiss(t, c, ds, matched, errors, i);
        GatheredSkip(a, c, ds, policyByName, exceptionByName, rendered, needed, neededExceptions, i);
      } else if m.Bad? {
        NotedMatch(t, c, ds, matched, errors, [InvalidClusterSelector(m.error)], i);
        matched, errors := matched + [d.name], errors[d.name := [InvalidClusterSelector(m.error)]];
        GatheredSkip(a, c, ds, policyByName, exceptionByName, rendered, needed, neededExceptions, i);
      } else {
        var errs;
        rendered, needed, neededExceptions, errs := AddDistribution(
          c, ds, i, t, a, groupByName, policyByName, exceptionByName, rendered, needed, neededExceptions);
        NotedMatch(t, c, ds, matched, errors, errs, i);
        matched := matched + [d.name];
        if errs != [] {
          errors := errors[d.name := errs];
        }
      }
    }
  }

  // ---- what the accumulated map holds ----

  function At(rendered: Modes, g: string, p: string): Option<string> {
    if g in rendered then Get(rendered[g], p) else None
  }

  lemma {:induction false} AddDistAt(a: Modes, c: Cluster, d: Distribution, rendered: Modes, j: nat, g: string, p: string)
    requires Active(d, c) && j <= |d.spec.policyGroups|
    ensures g in AddDist(a, c, d, rendered, j) <==> g in rendered || Lists(a, c, d, g, j)
    ensures At(AddDist(a, c, d, rendered, j), g, p) == Join(At(rendered, g, p), Contribution(a, c, d, g, p, j))
  {
    if j > 0 { AddDistAt(a, c, d, rendered, j - 1, g, p); }
  }

  lemma {:induction false} AddDistsAt(a: Modes, c: Cluster, ds: seq<Distribution>, j: nat, g: string, p: string)
    requires j <= |ds|
    ensures g in AddDists(a, c, ds, j) <==> RendersGroup(a, c, ds, g, j)
    ensures At(AddDists(a, c, ds, j), g, p) == RenderedMode(a, c, ds, g, p, j)
  {
    if j > 0 {
      AddDistsAt(a, c, ds, j - 1, g, p);
      if Active(ds[j - 1], c) {
        AddDistAt(a, c, ds[j - 1], AddDists(a, c, ds, j - 1), |ds[j - 1].spec.policyGroups|, g, p);
      }
    }
  }

  lemma {:induction false} RendersKnown(a: Modes, c: Cluster, ds: seq<Distribution>, g: string, p: string, j: nat)
    requires j <= |ds|
    ensures RendersGroup(a, c, ds, g, j) ==> g in a
    ensures RenderedMode(a, c, ds, g, p, j).Some? ==> RendersGroup(a, c, ds, g, j) && g in a && p in a[g]
  {
    if j > 0 { RendersKnown(a, c, ds, g, p, j - 1); }
  }

  lemma AddDistsAll(a: Modes, c: Cluster, ds: seq<Distribution>)
    ensures AddDists(a, c, ds) == AllModes(a, c, ds)
  {
    forall g ensures Get(AddDists(a, c, ds), g) == Get(AllModes(a, c, ds), g) {
      RendersKnown(a, c, ds, g, "", |ds|);
      AddDistsAt(a, c, ds, |ds|, g, "");
      if g in AddDists(a, c, ds) {
        forall p ensures Get(AddDists(a, c, ds)[g], p) == Get(GroupModes(a, c, ds, g), p) {
          AddDistsAt(a, c, ds, |ds|, g, p);
          RendersKnown(a, c, ds, g, p, |ds|);
        }
        SameMap(AddDists(a, c, ds)[g], GroupModes(a, c, ds, g));
      }
    }
    SameMap(AddDists(a, c, ds), AllModes(a, c, ds));
  }

  method RenderPolicies(needed: map<string, Policy>) returns (objects: seq<ManagedObject>)
    ensures objects == SortedValues(PolicyObjects(needed))
  {
    var names := SortedKeys(needed.Keys);
    ghost var want := PolicyObjects(needed);
    assert want.Keys == needed.Keys;
    objects := [];
    for i := 0 to |names|
      invariant objects == Pick(want, names, i)
    {
      var o := needed[names[i]];
      objects := objects + [PolicyObject(names[i], WithManaged(o.labels), o.spec)];
    }
  }

  method RenderExceptions(needed: map<string, PolicyException>) returns (objects: seq<ManagedObject>)
    ensures objects == SortedValues(ExceptionObjects(needed))
  {
    var names := SortedKeys(needed.Keys);
    ghost var want := ExceptionObjects(needed);
    assert want.Keys == needed.Keys;
    objects := [];
    for i := 0 to |names|
      invariant objects == Pick(want, names, i)
    {
      var o := needed[names[i]];
      objects := objects + [ExceptionObject(names[i], WithManaged(o.labels), o.spec)];
    }
  }

  method RenderRefs(modes: map<string, string>) returns (refs: seq<PolicyRef>)
    ensures refs == Refs(modes)
  {
    var names := SortedKeys(modes.Keys);
    ghost var want := map n | n in modes :: PolicyRef(n, modes[n]);
    assert want.Keys == modes.Keys;
    refs := [];
    for i := 0 to |names|
      invariant refs == Pick(want, names, i)
    {
      refs := refs + [PolicyRef(names[i], modes[names[i]])];
    }
  }

  method RenderGroups(groupByName: map<string, PolicyGroup>, rendered: Modes) returns (objects: seq<ManagedObject>)
    requires rendered.Keys <= groupByName.Keys
    ensures objects == SortedValues(GroupObjects(groupByName, rendered))
  {
    var names := SortedKeys(rendered.Keys);
    ghost var want := GroupObjects(groupByName, rendered);
    assert want.Keys == rendered.Keys;
    objects := [];
    for i := 0 to |names|
      invariant objects == Pick(want, names, i)
    {
      var refs := RenderRefs(rendered[names[i]]);
      var src := groupByName[names[i]];
      objects := objects + [GroupObject(names[i], WithManaged(src.labels), Flattened(src.spec, refs))];
    }
  }

  lemma IndexChosen<S(!new)>(listed: seq<Object<S>>, byName: map<string, Object<S>>)
    requires forall n :: Get(byName, n) == Lookup(listed, n)
    ensures byName == Chosen(listed, ObjectNames(listed))
  {
    forall n ensures Get(byName, n) == Get(Chosen(listed, ObjectNames(listed)), n) {
      assert Get(byName, n) == Lookup(listed, n);
    }
    SameMap(byName, Chosen(listed, ObjectNames(listed)));
  }

  lemma MarkChosen<S>(listed: seq<Object<S>>, keys: set<string>)
    ensures Mark(map[], Chosen(listed, ObjectNames(listed)), keys) == Chosen(listed, keys)
  {
  }

  /** `RenderWithExceptions`. */
  method RenderWithExceptions(c: Cluster, ds: seq<Distribution>, t: Tables, digest: seq<ManagedObject> -> string)
    returns (res: RenderResult)
    ensures res == Snapshot(c, ds, t, digest)
  {
    var groupByName := IndexByName(t.groups);
    var policyByName := IndexByName(t.policies);
    var exceptionByName := IndexByName(t.exceptions);
    IndexChosen(t.groups, groupByName);
    IndexChosen(t.policies, policyByName);
    IndexChosen(t.exceptions, exceptionByName);
    ghost var a := ResolveGroups(t);
    var rendered, needed, neededExceptions, matched, errors :=
      Collect(c, ds, t, a, groupByName, policyByName, exceptionByName);
    MarkChosen(t.policies, NeededPolicies(a, c, ds));
    MarkChosen(t.exceptions, NeededExceptions(c, ds));
    AddDistsAll(a, c, ds);
    var policies := RenderPolicies(needed);
    var groups := RenderGroups(groupByName, rendered);
    var exceptions := RenderExceptions(neededExceptions);
    var objects := policies + groups + exceptions;
    res := RenderResult(digest(objects), objects, SortNames(matched), errors);
  }
}
