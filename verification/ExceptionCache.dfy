/** The webhook's exception cache: one map of active exceptions and two indexes over it. */
module ExceptionCache {
  import opened Names
  import opened GroupResolve

  const PHASE_ACTIVE := "Active"

  datatype PolicyException = PolicyException(
    name: string,
    phase: string,
    policyRefs: seq<string>,
    policyGroupRefs: seq<string>,
    allPolicies: bool,
    namespaces: seq<string>,
    namespaceSelector: Option<Selector>,
    resourceSelector: Option<Selector>)

  /** The compiled form of an exception. */
  datatype Rule = Rule(
    name: string,
    policyRefs: set<string>,
    policyGroupRefs: set<string>,
    allPolicies: bool,
    namespaces: set<string>,
    namespaceSel: Option<Labels -> bool>,
    resourceSel: Option<Labels -> bool>)

  datatype CandidatePolicy = CandidatePolicy(name: string, referencedBy: seq<string>)

  /** An admission request; `None` labels mean the namespace could not be looked up. */
  datatype Request = Request(namespace: string, namespaceLabels: Option<Labels>, resourceLabels: Labels)

  function Matcher(s: Option<Selector>): Option<Labels -> bool> {
    match s
    case Some(Valid(f)) => Some(f)
    case _ => None
  }

  function Compile(x: PolicyException): Rule {
    Rule(x.name, Elements(x.policyRefs), Elements(x.policyGroupRefs), x.allPolicies, Elements(x.namespaces),
         Matcher(x.namespaceSelector), Matcher(x.resourceSelector))
  }

  predicate Selects(rule: Rule, req: Request) {
    && (rule.resourceSel.Some? ==> rule.resourceSel.value(req.resourceLabels))
    && (rule.namespaceSel.Some? ==> req.namespaceLabels.Some? && rule.namespaceSel.value(req.namespaceLabels.value))
  }

  predicate Covers(rule: Rule, req: Request) {
    (rule.namespaces == {} || req.namespace in rule.namespaces) && Selects(rule, req)
  }

  ghost predicate Targets(rule: Rule, p: CandidatePolicy) {
    || rule.allPolicies
    || p.name in rule.policyRefs
    || exists g :: g in p.referencedBy && g in rule.policyGroupRefs
  }

  /** The full scan: some stored rule covers the request and targets a candidate of that name. */
  ghost predicate Exempt(rules: map<string, Rule>, req: Request, policies: seq<CandidatePolicy>, x: string) {
    exists n :: n in rules && Covers(rules[n], req) && TargetsName(rules[n], policies, x)
  }

  ghost predicate TargetsName(rule: Rule, policies: seq<CandidatePolicy>, x: string) {
    exists p :: p in policies && p.name == x && Targets(rule, p)
  }

  // ---- the plain map ----

  datatype Event = Upserted(exception: PolicyException) | Deleted(name: string)

  function Subject(e: Event): string {
    if e.Upserted? then e.exception.name else e.name
  }

  function Apply(rules: map<string, Rule>, e: Event): map<string, Rule> {
    if e.Upserted? && e.exception.phase == PHASE_ACTIVE then rules[e.exception.name := Compile(e.exception)]
    else rules - {Subject(e)}
  }

  function Run(events: seq<Event>, j: nat := |events|): map<string, Rule>
    requires j <= |events|
  {
    if j == 0 then map[] else Apply(Run(events, j - 1), events[j - 1])
  }

  /** `events[k]` is the last of the first `j` events about `n`. */
  ghost predicate LastAbout(events: seq<Event>, n: string, k: nat, j: nat)
    requires j <= |events|
  {
    k < j && Subject(events[k]) == n && forall i :: k < i < j ==> Subject(events[i]) != n
  }

  /** Only the last event about a name decides what the cache holds under it. */
  lemma {:induction false} LastEventDecides(events: seq<Event>, n: string, k: nat, j: nat)
    requires j <= |events| && LastAbout(events, n, k, j)
    ensures Get(Run(events, j), n) ==
            if events[k].Upserted? && events[k].exception.phase == PHASE_ACTIVE then Some(Compile(events[k].exception)) else None
  {
    if k < j - 1 { LastEventDecides(events, n, k, j - 1); }
  }

  /** Fail closed: what is exempt while the namespace's labels are unknown is exempt whatever they are. */
  lemma UnknownLabelsExemptLess(rules: map<string, Rule>, req: Request, policies: seq<CandidatePolicy>, x: string, labels: Labels)
    requires Exempt(rules, req.(namespaceLabels := None), policies, x)
    ensures Exempt(rules, req.(namespaceLabels := Some(labels)), policies, x)
  {
    var n :| n in rules && Covers(rules[n], req.(namespaceLabels := None)) && TargetsName(rules[n], policies, x);
    assert Covers(rules[n], req.(namespaceLabels := Some(labels)));
  }

  // ---- malformed selectors ----

  predicate WellFormed(x: PolicyException) {
    && !(x.namespaceSelector.Some? && x.namespaceSelector.value.Malformed?)
    && !(x.resourceSelector.Some? && x.resourceSelector.value.Malformed?)
  }

  /** A selector that is present admits only what it matches; a malformed one matches nothing. */
  predicate SelectorAdmits(s: Option<Selector>, labels: Option<Labels>) {
    s.None? || (labels.Some? && s.value.Valid? && s.value.matches(labels.value))
  }

  predicate Intended(x: PolicyException, req: Request) {
    && (x.namespaces == [] || req.namespace in x.namespaces)
    && SelectorAdmits(x.namespaceSelector, req.namespaceLabels)
    && SelectorAdmits(x.resourceSelector, Some(req.resourceLabels))
  }

  lemma ElementsIn(s: seq<string>, x: string)
    ensures x in Elements(s) <==> x in s
    ensures Elements(s) == {} <==> s == []
  {
    ElementsContents(s, |s|);
    if s != [] { assert s[0] in Elements(s); }
  }

  /** What the exception says apart from malformed selectors admits the request. */
  predicate RestAdmits(x: PolicyException, req: Request) {
    && (x.namespaces == [] || req.namespace in x.namespaces)
    && (x.namespaceSelector.Some? && x.namespaceSelector.value.Valid? ==> SelectorAdmits(x.namespaceSelector, req.namespaceLabels))
    && (x.resourceSelector.Some? && x.resourceSelector.value.Valid? ==> SelectorAdmits(x.resourceSelector, Some(req.resourceLabels)))
  }

  /** Compilation drops a malformed selector, so such an exception covers more than it says: the two
      agree on a request exactly when no selector is malformed or the rest keeps the request out. */
  lemma CompiledCoverage(x: PolicyException, req: Request)
    ensures Intended(x, req) ==> Covers(Compile(x), req)
    ensures (Covers(Compile(x), req) <==> Intended(x, req)) <==> WellFormed(x) || !RestAdmits(x, req)
  {
    ElementsIn(x.namespaces, req.namespace);
  }

  /** An exception for namespaces no selector can match, because it is malformed, exempts everywhere. */
  lemma MalformedExemptsAll(error: string, req: Request, policies: seq<CandidatePolicy>, p: CandidatePolicy)
    requires p in policies
    ensures
      var x := PolicyException("x", PHASE_ACTIVE, [], [], true, [], Some(Malformed(error)), None);
      !Intended(x, req) && Exempt(Run([Upserted(x)]), req, policies, p.name)
  {
    var x := PolicyException("x", PHASE_ACTIVE, [], [], true, [], Some(Malformed(error)), None);
    var rules := Run([Upserted(x)]);
    assert rules == Apply(Run([Upserted(x)], 0), Upserted(x));
    assert "x" in rules && rules["x"] == Compile(x);
    CompiledCoverage(x, req);
    assert Covers(rules["x"], req) && TargetsName(rules["x"], policies, p.name);
  }

  // ---- exemption read off the exceptions as written ----

  /** The exception is for all policies, or names the policy, or names a group that lists it. */
  ghost predicate IsFor(x: PolicyException, p: CandidatePolicy) {
    || x.allPolicies
    || p.name in x.policyRefs
    || exists g :: g in p.referencedBy && g in x.policyGroupRefs
  }

  lemma CompiledTargets(x: PolicyException, p: CandidatePolicy)
    ensures Targets(Compile(x), p) <==> IsFor(x, p)
  {
    ElementsIn(x.policyRefs, p.name);
    if g :| g in p.referencedBy && g in Compile(x).policyGroupRefs { ElementsIn(x.policyGroupRefs, g); }
    if g :| g in p.referencedBy && g in x.policyGroupRefs { ElementsIn(x.policyGroupRefs, g); }
  }

  /** What a compiled exception covers: what it says apart from malformed selectors. */
  lemma CompiledCovers(x: PolicyException, req: Request)
    ensures Covers(Compile(x), req) <==> RestAdmits(x, req)
  {
    ElementsIn(x.namespaces, req.namespace);
  }

  /** The last event about some name is an active upsert of an exception that covers the request and
      names the policy. */
  ghost predicate Excused(events: seq<Event>, req: Request, p: CandidatePolicy) {
    exists k :: 0 <= k < |events| && InForce(events, k) && RestAdmits(events[k].exception, req) && IsFor(events[k].exception, p)
  }

  ghost predicate InForce(events: seq<Event>, k: nat)
    requires k < |events|
  {
    && events[k].Upserted? && events[k].exception.phase == "Active"
    && forall i :: k < i < |events| ==> Subject(events[i]) != events[k].exception.name
  }

  lemma {:induction false} LastEvent(events: seq<Event>, n: string, j: nat) returns (k: nat)
    requires j <= |events| && n in Run(events, j)
    ensures LastAbout(events, n, k, j)
  {
    if Subject(events[j - 1]) == n { k := j - 1; } else { k := LastEvent(events, n, j - 1); }
  }

  lemma StoredIsInForce(events: seq<Event>, n: string) returns (k: nat)
    requires n in Run(events)
    ensures k < |events| && InForce(events, k) && Run(events)[n] == Compile(events[k].exception)
  {
    k := LastEvent(events, n, |events|);
    LastEventDecides(events, n, k, |events|);
  }

  lemma InForceIsStored(events: seq<Event>, k: nat)
    requires k < |events| && InForce(events, k)
    ensures Get(Run(events), events[k].exception.name) == Some(Compile(events[k].exception))
  {
    LastEventDecides(events, events[k].exception.name, k, |events|);
  }

  /** After any sequence of events a name is exempt exactly when a candidate of that name is excused by
      an exception as it was last written. */
  lemma ExemptExactly(events: seq<Event>, req: Request, policies: seq<CandidatePolicy>, x: string)
    ensures Exempt(Run(events), req, policies, x) <==> exists p :: p in policies && p.name == x && Excused(events, req, p)
  {
    var rules := Run(events);
    if Exempt(rules, req, policies, x) {
      var n :| n in rules && Covers(rules[n], req) && TargetsName(rules[n], policies, x);
      var p :| p in policies && p.name == x && Targets(rules[n], p);
      StoredExcuses(events, req, n, p);
    }
    if p :| p in policies && p.name == x && Excused(events, req, p) {
      var n := ExcusedByStored(events, req, p);
      assert TargetsName(rules[n], policies, x);
    }
  }

  lemma StoredExcuses(events: seq<Event>, req: Request, n: string, p: CandidatePolicy)
    requires n in Run(events) && Covers(Run(events)[n], req) && Targets(Run(events)[n], p)
    ensures Excused(events, req, p)
  {
    var k := StoredIsInForce(events, n);
    CompiledCovers(events[k].exception, req);
    CompiledTargets(events[k].exception, p);
  }

  lemma ExcusedByStored(events: seq<Event>, req: Request, p: CandidatePolicy) returns (n: string)
    requires Excused(events, req, p)
    ensures n in Run(events) && Covers(Run(events)[n], req) && Targets(Run(events)[n], p)
  {
    var k :| 0 <= k < |events| && InForce(events, k) && RestAdmits(events[k].exception, req) && IsFor(events[k].exception, p);
    n := events[k].exception.name;
    InForceIsStored(events, k);
    CompiledCovers(events[k].exception, req);
    CompiledTargets(events[k].exception, p);
  }

  // ---- the cache ----

  /** A heap entry; the cache compares entries by identity. */
  class ExemptEntry {
    const rule: Rule

    constructor (rule: Rule)
      ensures this.rule == rule
    {
      this.rule := rule;
    }
  }

  ghost predicate Distinct(list: seq<ExemptEntry>) {
    forall i, j :: 0 <= i < j < |list| ==> list[i] != list[j]
  }

  /** `removeEntry`. */
  method RemoveEntry(list: seq<ExemptEntry>, target: ExemptEntry) returns (out: seq<ExemptEntry>)
    requires Distinct(list)
    ensures Distinct(out)
    ensures forall e :: e in out <==> e in list && e != target
  {
    out := [];
    for i := 0 to |list|
      invariant Distinct(out)
      invariant forall e :: e in out <==> e in list[..i] && e != target
    {
      if list[i] != target {
        assert list[i] !in list[..i];
        out := out + [list[i]];
      }
    }
    assert list[..|list|] == list;
  }

  type Table = map<string, ExemptEntry>

  /** A rule without namespaces belongs to the global list (`None`), any other under each of its namespaces. */
  predicate Belongs(rule: Rule, key: Option<string>) {
    if key.None? then rule.namespaces == {} else key.value in rule.namespaces
  }

  /** The list holds exactly the table's entries that belong under the key, each once. */
  ghost predicate IndexAt(all: Table, list: seq<ExemptEntry>, key: Option<string>) {
    && Distinct(list)
    && (forall e :: e in list ==> e.rule.name in all && all[e.rule.name] == e && Belongs(e.rule, key))
    && (forall n :: n in all && Belongs(all[n].rule, key) ==> all[n] in list)
  }

  function Bucket(nsIndex: map<string, seq<ExemptEntry>>, ns: string): seq<ExemptEntry> {
    if ns in nsIndex then nsIndex[ns] else []
  }

  /** An emptied bucket is dropped from the index. */
  function WithBucket(nsIndex: map<string, seq<ExemptEntry>>, ns: string, out: seq<ExemptEntry>): map<string, seq<ExemptEntry>> {
    if out == [] then nsIndex - {ns} else nsIndex[ns := out]
  }

  ghost predicate Keyed(all: Table) {
    forall n :: n in all ==> all[n].rule.name == n
  }

  lemma IndexRemove(all: Table, list: seq<ExemptEntry>, out: seq<ExemptEntry>, key: Option<string>, name: string)
    requires Keyed(all) && IndexAt(all, list, key) && name in all
    requires Distinct(out) && forall e :: e in out <==> e in list && e != all[name]
    ensures IndexAt(all - {name}, out, key)
  {
    forall n | n in all - {name} && Belongs(all[n].rule, key) ensures all[n] in out {
      assert all[n] in list;
    }
  }

  lemma IndexSkip(all: Table, list: seq<ExemptEntry>, key: Option<string>, name: string)
    requires Keyed(all) && IndexAt(all, list, key) && name in all && !Belongs(all[name].rule, key)
    ensures IndexAt(all - {name}, list, key)
  {
  }

  lemma IndexAdd(all: Table, list: seq<ExemptEntry>, key: Option<string>, entry: ExemptEntry)
    requires IndexAt(all, list, key) && entry.rule.name !in all
    ensures IndexAt(all[entry.rule.name := entry], if Belongs(entry.rule, key) then list + [entry] else list, key)
  {
    assert entry !in list;
  }

  /** One bucket without the entry. */
  method RemoveFrom(nsIndex: map<string, seq<ExemptEntry>>, ns: string, stored: ExemptEntry, ghost before: Table)
    returns (out: seq<ExemptEntry>)
    requires Keyed(before) && stored.rule.name in before && before[stored.rule.name] == stored
    requires ns in stored.rule.namespaces && IndexAt(before, Bucket(nsIndex, ns), Some(ns))
    ensures IndexAt(before - {stored.rule.name}, out, Some(ns))
  {
    out := RemoveEntry(Bucket(nsIndex, ns), stored);
    IndexRemove(before, Bucket(nsIndex, ns), out, Some(ns), stored.rule.name);
  }

  function RulesOf(all: Table): map<string, Rule> {
    map n | n in all :: all[n].rule
  }

  lemma RulesRemoved(all: Table, name: string)
    ensures RulesOf(all - {name}) == RulesOf(all) - {name}
  {
  }

  lemma RulesAdded(all: Table, name: string, entry: ExemptEntry)
    ensures RulesOf((all - {name})[name := entry]) == RulesOf(all)[name := entry.rule]
  {
  }

  class Cache {
    var all: Table
    var nsIndex: map<string, seq<ExemptEntry>>
    var global: seq<ExemptEntry>

    ghost predicate Valid()
      reads this
    {
      && Keyed(all)
      && IndexAt(all, global, None)
      && (forall ns :: IndexAt(all, Bucket(nsIndex, ns), Some(ns)))
      && (forall ns :: ns in nsIndex ==> nsIndex[ns] != [])
    }

    /** The plain map that the cache stands for. */
    ghost function Rules(): map<string, Rule>
      reads this
    {
      RulesOf(all)
    }

    constructor ()
      ensures Valid() && Rules() == map[]
    {
      all, nsIndex, global := map[], map[], [];
    }

    /** `removeUnlocked`. */
    method RemoveUnlocked(name: string)
      requires Valid()
      modifies this
      ensures Valid() && all == old(all) - {name}
    {
      if name !in all { return; }
      var stored := all[name];
      ghost var before := all;
      all := all - {name};
      if stored.rule.namespaces == {} {
        ghost var list := global;
        global := RemoveEntry(global, stored);
        IndexRemove(before, list, global, None, name);
        forall ns ensures IndexAt(all, Bucket(nsIndex, ns), Some(ns)) {
          IndexSkip(before, Bucket(nsIndex, ns), Some(ns), name);
        }
        return;
      }
      IndexSkip(before, global, None, name);
      RemoveFromBuckets(stored, before);
      forall ns ensures IndexAt(all, Bucket(nsIndex, ns), Some(ns)) {
        if ns !in stored.rule.namespaces { IndexSkip(before, Bucket(nsIndex, ns), Some(ns), name); }
      }
    }

    method RemoveFromBuckets(stored: ExemptEntry, ghost before: Table)
      requires Keyed(before) && stored.rule.name in before && before[stored.rule.name] == stored
      requires forall ns :: IndexAt(before, Bucket(nsIndex, ns), Some(ns))
      requires forall ns :: ns in nsIndex ==> nsIndex[ns] != []
      modifies this`nsIndex
      ensures forall ns :: ns in stored.rule.namespaces ==>
                             IndexAt(before - {stored.rule.name}, Bucket(nsIndex, ns), Some(ns))
      ensures forall ns :: ns !in stored.rule.namespaces ==> IndexAt(before, Bucket(nsIndex, ns), Some(ns))
      ensures forall ns :: ns in nsIndex ==> nsIndex[ns] != []
    {
      var rest := stored.rule.namespaces;
      while rest != {}
        invariant rest <= stored.rule.namespaces
        invariant forall ns :: ns in stored.rule.namespaces - rest ==>
                                 IndexAt(before - {stored.rule.name}, Bucket(nsIndex, ns), Some(ns))
        invariant forall ns :: ns !in stored.rule.namespaces - rest ==> IndexAt(before, Bucket(nsIndex, ns), Some(ns))
        invariant forall ns :: ns in nsIndex ==> nsIndex[ns] != []
        decreases rest
      {
        var ns := PickAny(rest);
        assert IndexAt(before, Bucket(nsIndex, ns), Some(ns));
        var out := RemoveFrom(nsIndex, ns, stored, before);
        ghost var was := nsIndex;
        nsIndex := WithBucket(nsIndex, ns, out);
        assert forall m :: Bucket(nsIndex, m) == if m == ns then out else Bucket(was, m);
        rest := rest - {ns};
      }
    }

    /** `Upsert`: an exception that is not active is removed. */
    method Upsert(x: PolicyException)
      requires Valid()
      modifies this
      ensures Valid() && Rules() == Apply(old(Rules()), Upserted(x))
    {
      RemoveUnlocked(x.name);
      RulesRemoved(old(all), x.name);
      if x.phase == PHASE_ACTIVE {
        var entry := new ExemptEntry(Compile(x));
        RulesAdded(old(all), x.name, entry);
        Insert(entry);
      }
    }

    method Insert(entry: ExemptEntry)
      requires Valid() && entry.rule.name !in all
      modifies this
      ensures Valid() && all == old(all)[entry.rule.name := entry]
    {
      ghost var before := all;
      IndexAdd(before, global, None, entry);
      all := all[entry.rule.name := entry];
      if entry.rule.namespaces == {} {
        global := global + [entry];
      } else {
        AddToBuckets(entry, before);
      }
      forall ns ensures IndexAt(all, Bucket(nsIndex, ns), Some(ns)) {
        if ns !in entry.rule.namespaces { IndexAdd(before, Bucket(nsIndex, ns), Some(ns), entry); }
      }
    }

    method AddToBuckets(entry: ExemptEntry, ghost before: Table)
      requires entry.rule.name !in before
      requires forall ns :: IndexAt(before, Bucket(nsIndex, ns), Some(ns))
      requires forall ns :: ns in nsIndex ==> nsIndex[ns] != []
      modifies this`nsIndex
      ensures forall ns :: ns in entry.rule.namespaces ==>
                             IndexAt(before[entry.rule.name := entry], Bucket(nsIndex, ns), Some(ns))
      ensures forall ns :: ns !in entry.rule.namespaces ==> IndexAt(before, Bucket(nsIndex, ns), Some(ns))
      ensures forall ns :: ns in nsIndex ==> nsIndex[ns] != []
    {
      var rest := entry.rule.namespaces;
      while rest != {}
        invariant rest <= entry.rule.namespaces
        invariant forall ns :: ns in entry.rule.namespaces - rest ==>
                                 IndexAt(before[entry.rule.name := entry], Bucket(nsIndex, ns), Some(ns))
        invariant forall ns :: ns !in entry.rule.namespaces - rest ==> IndexAt(before, Bucket(nsIndex, ns), Some(ns))
        invariant forall ns :: ns in nsIndex ==> nsIndex[ns] != []
        decreases rest
      {
        var ns := PickAny(rest);
        IndexAdd(before, Bucket(nsIndex, ns), Some(ns), entry);
        nsIndex := nsIndex[ns := Bucket(nsIndex, ns) + [entry]];
        rest := rest - {ns};
      }
    }

    method Delete(name: string)
      requires Valid()
      modifies this
      ensures Valid() && Rules() == Apply(old(Rules()), Deleted(name))
    {
      RemoveUnlocked(name);
    }

    /** The candidates drawn from the two indexes are the stored rules whose namespaces admit the request. */
    lemma CandidatesExact(req: Request, e: ExemptEntry)
      requires Valid()
      ensures e in global + Bucket(nsIndex, req.namespace) ==>
                && e.rule.name in Rules() && Rules()[e.rule.name] == e.rule
                && (e.rule.namespaces == {} || req.namespace in e.rule.namespaces)
    {
      assert IndexAt(all, Bucket(nsIndex, req.namespace), Some(req.namespace));
    }

    lemma CandidatesComplete(req: Request, n: string)
      requires Valid() && n in all && (all[n].rule.namespaces == {} || req.namespace in all[n].rule.namespaces)
      ensures all[n] in global + Bucket(nsIndex, req.namespace)
    {
      assert IndexAt(all, Bucket(nsIndex, req.namespace), Some(req.namespace));
    }

    /** `ExemptedKeys` agrees with the full scan of the plain map. */
    method ExemptedKeys(req: Request, policies: seq<CandidatePolicy>) returns (out: set<string>)
      requires Valid()
      ensures forall x :: x in out <==> Exempt(Rules(), req, policies, x)
    {
      var candidates := global + Bucket(nsIndex, req.namespace);
      out := {};
      for c := 0 to |candidates|
        invariant forall x :: x in out <==> ScanFinds(candidates, req, policies, x, c)
      {
        var rule := candidates[c].rule;
        if Selects(rule, req) {
          var named := TargetNames(rule, policies);
          out := out + named;
        }
      }
      forall x ensures x in out <==> Exempt(Rules(), req, policies, x) {
        if ScanFinds(candidates, req, policies, x, |candidates|) {
          var c :| 0 <= c < |candidates| && Finds(candidates[c], req, policies, x);
          CandidatesExact(req, candidates[c]);
          assert Covers(Rules()[candidates[c].rule.name], req);
        }
        if Exempt(Rules(), req, policies, x) {
          var n :| n in Rules() && Covers(Rules()[n], req) && TargetsName(Rules()[n], policies, x);
          CandidatesComplete(req, n);
          var c :| 0 <= c < |candidates| && candidates[c] == all[n];
          assert Finds(candidates[c], req, policies, x);
        }
      }
    }
  }

  ghost predicate Finds(e: ExemptEntry, req: Request, policies: seq<CandidatePolicy>, x: string) {
    Selects(e.rule, req) && TargetsName(e.rule, policies, x)
  }

  ghost predicate ScanFinds(list: seq<ExemptEntry>, req: Request, policies: seq<CandidatePolicy>, x: string, j: nat)
    requires j <= |list|
  {
    exists c :: 0 <= c < j && Finds(list[c], req, policies, x)
  }

  method TargetNames(rule: Rule, policies: seq<CandidatePolicy>) returns (out: set<string>)
    ensures forall x :: x in out <==> TargetsName(rule, policies, x)
  {
    out := {};
    for i := 0 to |policies|
      invariant forall x :: x in out <==> exists k :: 0 <= k < i && policies[k].name == x && Targets(rule, policies[k])
    {
      var hit := IsTarget(rule, policies[i]);
      if hit { out := out + {policies[i].name}; }
    }
  }

  method IsTarget(rule: Rule, p: CandidatePolicy) returns (hit: bool)
    ensures hit == Targets(rule, p)
  {
    if rule.allPolicies || p.name in rule.policyRefs { return true; }
    for i := 0 to |p.referencedBy|
      invariant forall k :: 0 <= k < i ==> p.referencedBy[k] !in rule.policyGroupRefs
    {
      if p.referencedBy[i] in rule.policyGroupRefs { return true; }
    }
    return false;
  }
}
