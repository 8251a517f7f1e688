/** Effective members of a PolicyGroup: byName ∪ bySelector − exclude.
    A label selector is an arbitrary predicate on labels, or malformed.
    Functions over a list take a count `j` and describe its first `j` entries;
    left out, it is the whole list. */
module GroupResolve {
  import opened Names

  type Labels = map<string, string>

  datatype Selector = Malformed(error: string) | Valid(matches: Labels -> bool)

  const MODE_ENFORCE := "enforce"
  const MODE_AUDIT := "audit"

  /** A named, labelled API object with a spec of its kind. */
  datatype Object<S> = Object(name: string, labels: Labels, spec: S)

  /** `content` stands for match, rego, description and rollbackTo. */
  datatype PolicySpec = PolicySpec(enforcementMode: string, content: string)
  type Policy = Object<PolicySpec>

  datatype PolicyRef = PolicyRef(name: string, enforcementMode: string)
  datatype PolicyGroupPolicies = PolicyGroupPolicies(
    byName: seq<PolicyRef>,
    bySelector: Option<Selector>,
    exclude: seq<string>)
  datatype PolicyGroupSpec = PolicyGroupSpec(
    displayName: string,
    description: string,
    enabled: bool,
    namespaceSelector: Option<Selector>,
    policies: PolicyGroupPolicies,
    selectorEnforcementMode: string)

  datatype Source = ByName | BySelector
  datatype EffectiveMember = EffectiveMember(name: string, enforcementMode: string, source: Source)
  datatype Condition = MissingMember(policy: string) | InvalidSelector(message: string)

  function Get<V>(m: map<string, V>, k: string): Option<V> {
    if k in m then Some(m[k]) else None
  }

  lemma SameMap<V(!new)>(m: map<string, V>, n: map<string, V>)
    requires forall k :: Get(m, k) == Get(n, k)
    ensures m == n
  {
    forall k ensures k in m <==> k in n { assert Get(m, k) == Get(n, k); }
    forall k | k in m ensures m[k] == n[k] { assert Get(m, k) == Get(n, k); }
  }

  function ObjectNames<S>(ps: seq<Object<S>>, j: nat := |ps|): set<string>
    requires j <= |ps|
  {
    if j == 0 then {} else ObjectNames(ps, j - 1) + {ps[j - 1].name}
  }

  /** The object a name denotes: the last one listed, as in a map filled in order. */
  function Lookup<S>(ps: seq<Object<S>>, n: string, j: nat := |ps|): (r: Option<Object<S>>)
    requires j <= |ps|
    ensures r.Some? <==> n in ObjectNames(ps, j)
    ensures r.Some? ==> r.value in ps && r.value.name == n
  {
    if j == 0 then None
    else if ps[j - 1].name == n then Some(ps[j - 1])
    else Lookup(ps, n, j - 1)
  }

  function LastRef(refs: seq<PolicyRef>, n: string, j: nat := |refs|): (r: Option<PolicyRef>)
    requires j <= |refs|
    ensures r.Some? ==> r.value in refs && r.value.name == n
  {
    if j == 0 then None
    else if refs[j - 1].name == n then Some(refs[j - 1])
    else LastRef(refs, n, j - 1)
  }

  /** The first listed policy of that name which the selector picks. */
  function FirstMatch(ps: seq<Policy>, f: Labels -> bool, n: string, j: nat := |ps|): (r: Option<Policy>)
    requires j <= |ps|
    ensures r.Some? ==> r.value in ps && r.value.name == n && f(r.value.labels) && n in ObjectNames(ps, j)
  {
    if j == 0 then None
    else
      var r := FirstMatch(ps, f, n, j - 1);
      if r.Some? then r
      else if ps[j - 1].name == n && f(ps[j - 1].labels) then Some(ps[j - 1]) else None
  }

  function OrElse(mode: string, fallback: string): string {
    if mode == "" then fallback else mode
  }

  function NamedMember(refs: seq<PolicyRef>, ps: seq<Policy>, n: string, j: nat := |refs|): Option<EffectiveMember>
    requires j <= |refs|
  {
    var ref, pol := LastRef(refs, n, j), Lookup(ps, n);
    if ref.Some? && pol.Some? then
      Some(EffectiveMember(n, OrElse(ref.value.enforcementMode, pol.value.spec.enforcementMode), ByName))
    else None
  }

  function SelectedMember(ps: seq<Policy>, f: Labels -> bool, mode: string, n: string, j: nat := |ps|): Option<EffectiveMember>
    requires j <= |ps|
  {
    var pol := FirstMatch(ps, f, n, j);
    if pol.Some? then Some(EffectiveMember(n, OrElse(mode, pol.value.spec.enforcementMode), BySelector))
    else None
  }

  /** What one name resolves to before exclusion. */
  function Included(spec: PolicyGroupSpec, ps: seq<Policy>, n: string): (r: Option<EffectiveMember>)
    ensures r.Some? ==> r.value.name == n && n in ObjectNames(ps)
  {
    var named := NamedMember(spec.policies.byName, ps, n);
    if named.Some? then named
    else match spec.policies.bySelector
      case Some(Valid(f)) => SelectedMember(ps, f, spec.selectorEnforcementMode, n)
      case _ => None
  }

  /** What one name resolves to. */
  function Effective(spec: PolicyGroupSpec, ps: seq<Policy>, n: string): (r: Option<EffectiveMember>)
    ensures r.Some? ==> r.value.name == n && n in ObjectNames(ps)
  {
    if n in Elements(spec.policies.exclude) then None else Included(spec, ps, n)
  }

  ghost function Resolved(spec: PolicyGroupSpec, ps: seq<Policy>): map<string, EffectiveMember> {
    map n | n in ObjectNames(ps) && Effective(spec, ps, n).Some? :: Effective(spec, ps, n).value
  }

  /** The values of a map, in the order of their names. */
  ghost function SortedValues<V>(m: map<string, V>): seq<V> {
    Pick(m, Listing(m.Keys))
  }

  function Pick<V>(m: map<string, V>, names: seq<string>, j: nat := |names|): (r: seq<V>)
    requires j <= |names|
    requires forall i :: 0 <= i < |names| ==> names[i] in m
    ensures |r| == j
  {
    if j == 0 then [] else Pick(m, names, j - 1) + [m[names[j - 1]]]
  }

  lemma {:induction false} PickAt<V>(m: map<string, V>, names: seq<string>, j: nat, i: nat)
    requires i < j <= |names|
    requires forall i :: 0 <= i < |names| ==> names[i] in m
    ensures Pick(m, names, j)[i] == m[names[i]]
  {
    if i < j - 1 { PickAt(m, names, j - 1, i); }
  }

  lemma SortedValuesContents<V>(m: map<string, V>)
    ensures forall n :: n in m ==> m[n] in SortedValues(m)
    ensures forall v :: v in SortedValues(m) ==> exists n :: n in m && m[n] == v
  {
    var names, r := Listing(m.Keys), SortedValues(m);
    forall n | n in m ensures m[n] in r {
      ListingContents(m.Keys, n);
      assert n in names;
      var i :| 0 <= i < |names| && names[i] == n;
      PickAt(m, names, |names|, i);
    }
    forall v | v in r ensures exists n :: n in m && m[n] == v {
      var i :| 0 <= i < |r| && r[i] == v;
      PickAt(m, names, |names|, i);
    }
  }

  function MissingRefs(refs: seq<PolicyRef>, ps: seq<Policy>, j: nat := |refs|): seq<Condition>
    requires j <= |refs|
  {
    if j == 0 then []
    else
      var before := MissingRefs(refs, ps, j - 1);
      if Lookup(ps, refs[j - 1].name).Some? then before else before + [MissingMember(refs[j - 1].name)]
  }

  function Conditions(spec: PolicyGroupSpec, ps: seq<Policy>): seq<Condition> {
    MissingRefs(spec.policies.byName, ps) +
    match spec.policies.bySelector
      case Some(Malformed(error)) => [InvalidSelector(error)]
      case _ => []
  }

  method IndexByName<S>(ps: seq<Object<S>>) returns (byName: map<string, Object<S>>)
    ensures forall n :: Get(byName, n) == Lookup(ps, n)
  {
    byName := map[];
    for i := 0 to |ps|
      invariant forall n :: Get(byName, n) == Lookup(ps, n, i)
    {
      byName := byName[ps[i].name := ps[i]];
    }
  }

  lemma NamedStep(refs: seq<PolicyRef>, ps: seq<Policy>, n: string, i: nat)
    requires i < |refs|
    ensures refs[i].name != n || Lookup(ps, n).None? ==> NamedMember(refs, ps, n, i + 1) == NamedMember(refs, ps, n, i)
    ensures refs[i].name == n && Lookup(ps, n).Some? ==>
              NamedMember(refs, ps, n, i + 1) ==
              Some(EffectiveMember(n, OrElse(refs[i].enforcementMode, Lookup(ps, n).value.spec.enforcementMode), ByName))
  {
  }

  method ResolveByName(refs: seq<PolicyRef>, ps: seq<Policy>)
    returns (resolved: map<string, EffectiveMember>, conditions: seq<Condition>)
    ensures forall n :: Get(resolved, n) == NamedMember(refs, ps, n)
    ensures conditions == MissingRefs(refs, ps)
  {
    var byName := IndexByName(ps);
    resolved, conditions := map[], [];
    for i := 0 to |refs|
      invariant forall n :: Get(resolved, n) == NamedMember(refs, ps, n, i)
      invariant conditions == MissingRefs(refs, ps, i)
    {
      var ref := refs[i];
      assert Get(byName, ref.name) == Lookup(ps, ref.name);
      ghost var before := resolved;
      if ref.name !in byName {
        conditions := conditions + [MissingMember(ref.name)];
      } else {
        var mode := OrElse(ref.enforcementMode, byName[ref.name].spec.enforcementMode);
        resolved := resolved[ref.name := EffectiveMember(ref.name, mode, ByName)];
      }
      forall n ensures Get(resolved, n) == NamedMember(refs, ps, n, i + 1) {
        NamedStep(refs, ps, n, i);
        assert Get(before, n) == NamedMember(refs, ps, n, i);
      }
    }
  }

  method ResolveBySelector(named: map<string, EffectiveMember>, ps: seq<Policy>, f: Labels -> bool, selectorMode: string)
    returns (resolved: map<string, EffectiveMember>)
    ensures forall n ::
              Get(resolved, n) == if n in named then Some(named[n]) else SelectedMember(ps, f, selectorMode, n)
  {
    resolved := named;
    for i := 0 to |ps|
      invariant forall n ::
                  Get(resolved, n) == if n in named then Some(named[n]) else SelectedMember(ps, f, selectorMode, n, i)
    {
      var pol := ps[i];
      ghost var before := resolved;
      if f(pol.labels) && pol.name !in resolved {
        resolved := resolved[pol.name :=
          EffectiveMember(pol.name, OrElse(selectorMode, pol.spec.enforcementMode), BySelector)];
      }
      forall n ensures Get(resolved, n) == if n in named then Some(named[n]) else SelectedMember(ps, f, selectorMode, n, i + 1) {
        assert Get(before, n) == if n in named then Some(named[n]) else SelectedMember(ps, f, selectorMode, n, i);
      }
    }
  }

  /** byName entries, then selector matches that byName does not already hold. */
  method Include(spec: PolicyGroupSpec, ps: seq<Policy>)
    returns (resolved: map<string, EffectiveMember>, conditions: seq<Condition>)
    ensures forall n :: Get(resolved, n) == Included(spec, ps, n)
    ensures conditions == Conditions(spec, ps)
  {
    resolved, conditions := ResolveByName(spec.policies.byName, ps);
    ghost var named := resolved;
    match spec.policies.bySelector {
      case None =>
      case Some(Malformed(error)) => conditions := conditions + [InvalidSelector(error)];
      case Some(Valid(f)) => resolved := ResolveBySelector(resolved, ps, f, spec.selectorEnforcementMode);
    }
    forall n ensures Get(resolved, n) == Included(spec, ps, n) {
      assert Get(named, n) == NamedMember(spec.policies.byName, ps, n);
    }
  }

  method Exclude(included: map<string, EffectiveMember>, names: seq<string>) returns (resolved: map<string, EffectiveMember>)
    ensures forall n :: Get(resolved, n) == if n in Elements(names) then None else Get(included, n)
  {
    resolved := included;
    for i := 0 to |names|
      invariant forall n :: Get(resolved, n) == if n in Elements(names, i) then None else Get(included, n)
    {
      resolved := resolved - {names[i]};
    }
  }

  /** `Resolve`: members sorted by name, and the conditions met on the way. */
  method Resolve(spec: PolicyGroupSpec, ps: seq<Policy>)
    returns (members: seq<EffectiveMember>, conditions: seq<Condition>)
    ensures members == SortedValues(Resolved(spec, ps))
    ensures conditions == Conditions(spec, ps)
  {
    var included, resolved;
    included, conditions := Include(spec, ps);
    resolved := Exclude(included, spec.policies.exclude);
    forall n ensures Get(resolved, n) == Get(Resolved(spec, ps), n) {
      assert Get(included, n) == Included(spec, ps, n);
    }
    SameMap(resolved, Resolved(spec, ps));
    var names := SortedKeys(resolved.Keys);
    members := Pick(resolved, names);
  }

  // ---- what resolution means ----

  lemma {:induction false} NamesContents<S(!new)>(ps: seq<Object<S>>, n: string, j: nat)
    requires j <= |ps|
    ensures n in ObjectNames(ps, j) <==> exists i :: 0 <= i < j && ps[i].name == n
  {
    if j > 0 { NamesContents(ps, n, j - 1); }
  }

  lemma {:induction false} LastRefContents(refs: seq<PolicyRef>, n: string, j: nat)
    requires j <= |refs|
    ensures LastRef(refs, n, j).Some? <==> exists i :: 0 <= i < j && refs[i].name == n
  {
    if j > 0 { LastRefContents(refs, n, j - 1); }
  }

  lemma {:induction false} FirstMatchContents(ps: seq<Policy>, f: Labels -> bool, n: string, j: nat)
    requires j <= |ps|
    ensures FirstMatch(ps, f, n, j).Some? <==> exists i :: 0 <= i < j && ps[i].name == n && f(ps[i].labels)
  {
    if j > 0 { FirstMatchContents(ps, f, n, j - 1); }
  }

  ghost predicate Referenced(spec: PolicyGroupSpec, n: string) {
    exists ref :: ref in spec.policies.byName && ref.name == n
  }

  ghost predicate SelectedBy(spec: PolicyGroupSpec, p: Policy) {
    && spec.policies.bySelector.Some?
    && spec.policies.bySelector.value.Valid?
    && spec.policies.bySelector.value.matches(p.labels)
  }

  /** Membership is byName ∪ bySelector − exclude over the policies that exist. */
  lemma ResolvedMembership(spec: PolicyGroupSpec, ps: seq<Policy>, n: string)
    ensures n in Resolved(spec, ps) <==>
      && n !in spec.policies.exclude
      && exists p :: p in ps && p.name == n && (Referenced(spec, n) || SelectedBy(spec, p))
  {
    var sel := spec.policies.bySelector;
    NamesContents(ps, n, |ps|);
    LastRefContents(spec.policies.byName, n, |spec.policies.byName|);
    ElementsContents(spec.policies.exclude, |spec.policies.exclude|);
    if sel.Some? && sel.value.Valid? { FirstMatchContents(ps, sel.value.matches, n, |ps|); }
    assert Get(Resolved(spec, ps), n) == Effective(spec, ps, n);
    if n in Resolved(spec, ps) {
      if LastRef(spec.policies.byName, n).Some? {
        assert LastRef(spec.policies.byName, n).value in spec.policies.byName;
        assert Lookup(ps, n).value in ps;
      } else {
        assert SelectedBy(spec, FirstMatch(ps, sel.value.matches, n).value);
      }
    }
  }

  /** Two listed objects of one name are one object. */
  ghost predicate UniqueNames<S(!new)>(ps: seq<Object<S>>) {
    forall p, q :: p in ps && q in ps && p.name == q.name ==> p == q
  }

  lemma SameElements<T>(a: seq<T>, b: seq<T>)
    requires multiset(a) == multiset(b)
    ensures forall x :: x in a <==> x in b
  {
    forall x ensures x in a <==> x in b {
      assert x in a <==> x in multiset(a);
      assert x in b <==> x in multiset(b);
    }
  }

  lemma PresentFound<S(!new)>(ps: seq<Object<S>>, p: Object<S>)
    requires p in ps
    ensures p.name in ObjectNames(ps) && Lookup(ps, p.name).Some?
  {
    NamesContents(ps, p.name, |ps|);
  }

  lemma LookupPermutation<S(!new)>(ps: seq<Object<S>>, qs: seq<Object<S>>, n: string)
    requires UniqueNames(ps) && multiset(ps) == multiset(qs)
    ensures Lookup(ps, n) == Lookup(qs, n)
  {
    SameElements(ps, qs);
    if Lookup(ps, n).Some? { PresentFound(qs, Lookup(ps, n).value); }
    if Lookup(qs, n).Some? { PresentFound(ps, Lookup(qs, n).value); }
  }

  lemma FirstMatchPermutation(ps: seq<Policy>, qs: seq<Policy>, f: Labels -> bool, n: string)
    requires UniqueNames(ps) && multiset(ps) == multiset(qs)
    ensures FirstMatch(ps, f, n) == FirstMatch(qs, f, n)
  {
    SameElements(ps, qs);
    FirstMatchContents(ps, f, n, |ps|);
    FirstMatchContents(qs, f, n, |qs|);
    if FirstMatch(ps, f, n).Some? { assert FirstMatch(ps, f, n).value in qs; }
    if FirstMatch(qs, f, n).Some? { assert FirstMatch(qs, f, n).value in ps; }
  }

  lemma EffectivePermutation(spec: PolicyGroupSpec, ps: seq<Policy>, qs: seq<Policy>, n: string)
    requires UniqueNames(ps) && multiset(ps) == multiset(qs)
    ensures Effective(spec, ps, n) == Effective(spec, qs, n)
  {
    LookupPermutation(ps, qs, n);
    match spec.policies.bySelector {
      case Some(Valid(f)) => FirstMatchPermutation(ps, qs, f, n);
      case _ =>
    }
  }

  /** Resolving does not depend on the order the policies are listed in. */
  lemma ResolvePermutation(spec: PolicyGroupSpec, ps: seq<Policy>, qs: seq<Policy>)
    requires UniqueNames(ps) && multiset(ps) == multiset(qs)
    ensures Resolved(spec, ps) == Resolved(spec, qs)
    ensures Conditions(spec, ps) == Conditions(spec, qs)
  {
    forall n ensures Get(Resolved(spec, ps), n) == Get(Resolved(spec, qs), n) {
      EffectivePermutation(spec, ps, qs, n);
    }
    SameMap(Resolved(spec, ps), Resolved(spec, qs));
    MissingPermutation(spec.policies.byName, ps, qs, |spec.policies.byName|);
  }

  lemma {:induction false} MissingPermutation(refs: seq<PolicyRef>, ps: seq<Policy>, qs: seq<Policy>, j: nat)
    requires UniqueNames(ps) && multiset(ps) == multiset(qs) && j <= |refs|
    ensures MissingRefs(refs, ps, j) == MissingRefs(refs, qs, j)
  {
    if j > 0 {
      MissingPermutation(refs, ps, qs, j - 1);
      LookupPermutation(ps, qs, refs[j - 1].name);
    }
  }

  // ---- resolution read off the spec and the policy list ----

  /** The last object of that name. */
  predicate LastNamed<S>(ps: seq<Object<S>>, n: string, i: int) {
    0 <= i < |ps| && ps[i].name == n && forall k :: i < k < |ps| ==> ps[k].name != n
  }

  predicate LastReference(refs: seq<PolicyRef>, n: string, i: int) {
    0 <= i < |refs| && refs[i].name == n && forall k :: i < k < |refs| ==> refs[k].name != n
  }

  /** The first policy of that name that the selector picks. */
  predicate FirstPicked(ps: seq<Policy>, f: Labels -> bool, n: string, i: int) {
    && 0 <= i < |ps| && ps[i].name == n && f(ps[i].labels)
    && forall k :: 0 <= k < i ==> !(ps[k].name == n && f(ps[k].labels))
  }

  lemma {:induction false} LookupPrefix<S>(ps: seq<Object<S>>, n: string, i: nat, j: nat)
    requires i < j <= |ps| && ps[i].name == n && forall k :: i < k < j ==> ps[k].name != n
    ensures Lookup(ps, n, j) == Some(ps[i])
  {
    if i < j - 1 { LookupPrefix(ps, n, i, j - 1); }
  }

  lemma {:induction false} LookupSome<S>(ps: seq<Object<S>>, n: string, j: nat) returns (i: nat)
    requires j <= |ps| && Lookup(ps, n, j).Some?
    ensures i < j && ps[i].name == n && forall k :: i < k < j ==> ps[k].name != n
  {
    if ps[j - 1].name == n { i := j - 1; } else { i := LookupSome(ps, n, j - 1); }
  }

  /** A name denotes its last entry. */
  lemma LookupExact<S(!new)>(ps: seq<Object<S>>, n: string, x: Object<S>)
    ensures Lookup(ps, n) == Some(x) <==> exists i :: LastNamed(ps, n, i) && ps[i] == x
  {
    if i :| LastNamed(ps, n, i) && ps[i] == x { LookupPrefix(ps, n, i, |ps|); }
    if Lookup(ps, n) == Some(x) {
      var i := LookupSome(ps, n, |ps|);
      LookupPrefix(ps, n, i, |ps|);
      assert LastNamed(ps, n, i);
    }
  }

  lemma {:induction false} LastRefPrefix(refs: seq<PolicyRef>, n: string, i: nat, j: nat)
    requires i < j <= |refs| && refs[i].name == n && forall k :: i < k < j ==> refs[k].name != n
    ensures LastRef(refs, n, j) == Some(refs[i])
  {
    if i < j - 1 { LastRefPrefix(refs, n, i, j - 1); }
  }

  lemma {:induction false} LastRefSome(refs: seq<PolicyRef>, n: string, j: nat) returns (i: nat)
    requires j <= |refs| && LastRef(refs, n, j).Some?
    ensures i < j && refs[i].name == n && forall k :: i < k < j ==> refs[k].name != n
  {
    if refs[j - 1].name == n { i := j - 1; } else { i := LastRefSome(refs, n, j - 1); }
  }

  lemma LastRefExact(refs: seq<PolicyRef>, n: string, x: PolicyRef)
    ensures LastRef(refs, n) == Some(x) <==> exists i :: LastReference(refs, n, i) && refs[i] == x
  {
    if i :| LastReference(refs, n, i) && refs[i] == x { LastRefPrefix(refs, n, i, |refs|); }
    if LastRef(refs, n) == Some(x) {
      var i := LastRefSome(refs, n, |refs|);
      LastRefPrefix(refs, n, i, |refs|);
      assert LastReference(refs, n, i);
    }
  }

  lemma {:induction false} FirstMatchPrefix(ps: seq<Policy>, f: Labels -> bool, n: string, i: nat, j: nat)
    requires FirstPicked(ps, f, n, i) && j <= |ps|
    ensures FirstMatch(ps, f, n, j) == if i < j then Some(ps[i]) else None
  {
    if j > 0 { FirstMatchPrefix(ps, f, n, i, j - 1); }
  }

  lemma {:induction false} FirstMatchSome(ps: seq<Policy>, f: Labels -> bool, n: string, j: nat) returns (i: nat)
    requires j <= |ps| && FirstMatch(ps, f, n, j).Some?
    ensures FirstPicked(ps, f, n, i)
  {
    if FirstMatch(ps, f, n, j - 1).Some? {
      i := FirstMatchSome(ps, f, n, j - 1);
    } else {
      FirstMatchContents(ps, f, n, j - 1);
      i := j - 1;
    }
  }

  lemma FirstMatchExact(ps: seq<Policy>, f: Labels -> bool, n: string, x: Policy)
    ensures FirstMatch(ps, f, n) == Some(x) <==> exists i :: FirstPicked(ps, f, n, i) && ps[i] == x
  {
    if i :| FirstPicked(ps, f, n, i) && ps[i] == x { FirstMatchPrefix(ps, f, n, i, |ps|); }
    if FirstMatch(ps, f, n) == Some(x) {
      var i := FirstMatchSome(ps, f, n, |ps|);
      FirstMatchPrefix(ps, f, n, i, |ps|);
    }
  }

  /** Named by an entry: its mode if set, else the policy's own. */
  ghost predicate NamedAs(spec: PolicyGroupSpec, ps: seq<Policy>, n: string, m: EffectiveMember) {
    exists i, k :: LastReference(spec.policies.byName, n, i) && LastNamed(ps, n, k) && FromEntry(spec.policies.byName[i], ps[k], m)
  }

  predicate FromEntry(ref: PolicyRef, p: Policy, m: EffectiveMember) {
    && m.name == p.name && m.source == ByName
    && (ref.enforcementMode != "" ==> m.enforcementMode == ref.enforcementMode)
    && (ref.enforcementMode == "" ==> m.enforcementMode == p.spec.enforcementMode)
  }

  /** Picked by the selector: the group's selector mode if set, else the policy's own. */
  ghost predicate SelectedAs(spec: PolicyGroupSpec, ps: seq<Policy>, n: string, m: EffectiveMember) {
    && spec.policies.bySelector.Some? && spec.policies.bySelector.value.Valid?
    && exists k :: FirstPicked(ps, spec.policies.bySelector.value.matches, n, k) && FromSelector(spec, ps[k], m)
  }

  predicate FromSelector(spec: PolicyGroupSpec, p: Policy, m: EffectiveMember) {
    && m.name == p.name && m.source == BySelector
    && (spec.selectorEnforcementMode != "" ==> m.enforcementMode == spec.selectorEnforcementMode)
    && (spec.selectorEnforcementMode == "" ==> m.enforcementMode == p.spec.enforcementMode)
  }

  lemma NamedExact(spec: PolicyGroupSpec, ps: seq<Policy>, n: string, m: EffectiveMember)
    ensures NamedMember(spec.policies.byName, ps, n) == Some(m) <==> NamedAs(spec, ps, n, m)
  {
    var refs := spec.policies.byName;
    if NamedMember(refs, ps, n) == Some(m) {
      LastRefExact(refs, n, LastRef(refs, n).value);
      LookupExact(ps, n, Lookup(ps, n).value);
    }
    if i, k :| LastReference(refs, n, i) && LastNamed(ps, n, k) && FromEntry(refs[i], ps[k], m) {
      LastRefExact(refs, n, refs[i]);
      LookupExact(ps, n, ps[k]);
    }
  }

  lemma SelectedExact(spec: PolicyGroupSpec, ps: seq<Policy>, n: string, m: EffectiveMember)
    requires spec.policies.bySelector.Some? && spec.policies.bySelector.value.Valid?
    ensures SelectedMember(ps, spec.policies.bySelector.value.matches, spec.selectorEnforcementMode, n) == Some(m) <==>
            SelectedAs(spec, ps, n, m)
  {
    var f := spec.policies.bySelector.value.matches;
    if FirstMatch(ps, f, n).Some? { FirstMatchExact(ps, f, n, FirstMatch(ps, f, n).value); }
    if k :| FirstPicked(ps, f, n, k) && FromSelector(spec, ps[k], m) { FirstMatchExact(ps, f, n, ps[k]); }
  }

  /** Each member with its mode and source: an entry goes before the selector, an entry's mode before the
      policy's own, the selector mode before the policy's own. */
  lemma ResolvedExact(spec: PolicyGroupSpec, ps: seq<Policy>, n: string, m: EffectiveMember)
    ensures Get(Resolved(spec, ps), n) == Some(m) <==>
      && n !in spec.policies.exclude
      && (NamedAs(spec, ps, n, m) || (!Referenced(spec, n) && SelectedAs(spec, ps, n, m)))
  {
    assert Get(Resolved(spec, ps), n) == Effective(spec, ps, n);
    ElementsContents(spec.policies.exclude, |spec.policies.exclude|);
    NamedExact(spec, ps, n, m);
    NamedWhenReferenced(spec, ps, n);
    var sel := spec.policies.bySelector;
    if sel.Some? && sel.value.Valid? {
      SelectedExact(spec, ps, n, m);
      if SelectedAs(spec, ps, n, m) { assert n in ObjectNames(ps); }
    }
  }

  lemma NamedWhenReferenced(spec: PolicyGroupSpec, ps: seq<Policy>, n: string)
    ensures NamedMember(spec.policies.byName, ps, n).Some? <==> Referenced(spec, n) && n in ObjectNames(ps)
  {
    var refs := spec.policies.byName;
    LastRefContents(refs, n, |refs|);
    if ref :| ref in refs && ref.name == n { var i :| 0 <= i < |refs| && refs[i] == ref; }
  }

  /** Resolving reports exactly the entries whose policy does not exist and a malformed selector. */
  lemma ConditionsExact(spec: PolicyGroupSpec, ps: seq<Policy>, x: Condition)
    ensures x in Conditions(spec, ps) <==>
      match x
      case MissingMember(n) => Referenced(spec, n) && forall p :: p in ps ==> p.name != n
      case InvalidSelector(error) => spec.policies.bySelector == Some(Malformed(error))
  {
    var refs := spec.policies.byName;
    MissingContents(refs, ps, x, |refs|);
    if x.MissingMember? {
      NamesContents(ps, x.policy, |ps|);
      if p :| p in ps && p.name == x.policy { PresentFound(ps, p); }
      if i :| 0 <= i < |refs| && x == MissingMember(refs[i].name) { assert refs[i] in refs; }
      if ref :| ref in refs && ref.name == x.policy { var i :| 0 <= i < |refs| && refs[i] == ref; }
    }
  }

  lemma {:induction false} MissingContents(refs: seq<PolicyRef>, ps: seq<Policy>, x: Condition, j: nat)
    requires j <= |refs|
    ensures x in MissingRefs(refs, ps, j) <==>
      exists i :: 0 <= i < j && x == MissingMember(refs[i].name) && Lookup(ps, refs[i].name).None?
  {
    if j > 0 { MissingContents(refs, ps, x, j - 1); }
  }

  /** The members come sorted by name, each once. */
  lemma MembersSorted(spec: PolicyGroupSpec, ps: seq<Policy>, i: nat, j: nat)
    requires i < j < |SortedValues(Resolved(spec, ps))|
    ensures Less(SortedValues(Resolved(spec, ps))[i].name, SortedValues(Resolved(spec, ps))[j].name)
  {
    var m := Resolved(spec, ps);
    var names := Listing(m.Keys);
    PickAt(m, names, |names|, i);
    PickAt(m, names, |names|, j);
    ListingStrict(m.Keys, i, j);
  }
}
