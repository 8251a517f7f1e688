/** The answer to a request read off the caches, the exception events and the evaluations, with
    nothing compiled in between. */
module AdmissionVerdict {
  import opened Names
  import opened PolicyMatching
  import opened Violations
  import opened Admission
  import opened AdmissionReport
  import X = ExceptionCache

  /** The cached policy is demanded of the request, and no exception in force excuses it. */
  ghost predicate Due(c: Context, events: seq<X.Event>, n: string) {
    && Demanded(c.policies, c.groups, c.query, n)
    && !X.Excused(events, c.subject, X.CandidatePolicy(c.policies[n].name, c.policies[n].referencedBy))
  }

  lemma SparedExactly(c: Context, events: seq<X.Event>, p: CompiledPolicy)
    requires c.rules == X.Run(events)
    ensures Spared(c, p) <==> X.Excused(events, c.subject, X.CandidatePolicy(p.name, p.referencedBy))
  {
    var q := X.CandidatePolicy(p.name, p.referencedBy);
    if Spared(c, p) {
      var n :| n in c.rules && X.Covers(c.rules[n], c.subject) && X.Targets(c.rules[n], Candidate(p));
      X.StoredExcuses(events, c.subject, n, q);
    }
    if X.Excused(events, c.subject, q) { var n := X.ExcusedByStored(events, c.subject, q); }
  }

  lemma JudgedExactly(c: Context, events: seq<X.Event>, n: string)
    requires c.rules == X.Run(events)
    ensures Judged(c, n) <==> Due(c, events, n)
  {
    SelectedExactly(c.policies, c.groups, c.query, n);
    if n in c.policies { SparedExactly(c, events, c.policies[n]); }
  }

  /** Nobody enforces the policy, one group alone hits it, and its mode there is not audit. */
  ghost predicate OddlyHit(c: Context, n: string) {
    exists g :: HitBy(c.groups, c.query, g, n) && c.groups[g].members[n] !in {"audit", "enforce"} &&
                forall h :: HitBy(c.groups, c.query, h, n) ==> h == g
  }

  /** The policy's evaluation stops the request: it fails or returns a message and a group enforces the
      policy, or it returns a message and the policy is oddly hit. */
  ghost predicate Stops(c: Context, n: string)
    requires n in c.policies
  {
    match c.oracle(c.policies[n])
    case Messages(ms) => ms != [] && (EnforcedBySome(c.groups, c.query, n) || OddlyHit(c, n))
    case EvalError => EnforcedBySome(c.groups, c.query, n)
  }

  lemma OddExactly(c: Context, n: string)
    requires Judged(c, n)
    ensures OddlyHit(c, n) <==> |HitsOf(c, n)| == 1 && ModeFor(c.groups, HitsOf(c, n), n) !in {"audit", "enforce"}
  {
    var hits := HitsOf(c, n);
    forall g ensures g in hits <==> HitBy(c.groups, c.query, g, n) { HitExactly(c.groups, c.query, g, n); }
    if OddlyHit(c, n) {
      var g :| HitBy(c.groups, c.query, g, n) && c.groups[g].members[n] !in {"audit", "enforce"} &&
               forall h :: HitBy(c.groups, c.query, h, n) ==> h == g;
      assert hits == {g};
      ModeOfOne(c.groups, g, n);
    }
    if |hits| == 1 {
      var g := AnyOf(hits);
      SingletonIs(hits, g);
      ModeOfOne(c.groups, g, n);
      assert forall h :: HitBy(c.groups, c.query, h, n) ==> h in hits;
    }
  }

  lemma DeniesRead(c: Context, events: seq<X.Event>, n: string)
    requires c.rules == X.Run(events)
    ensures Denies(c, n) <==> Due(c, events, n) && Stops(c, n)
  {
    JudgedExactly(c, events, n);
    if Judged(c, n) {
      DeniesExactly(c, n);
      EnforcedExactly(c.groups, c.query, n);
      OddExactly(c, n);
      ModeEnforces(c.groups, HitsOf(c, n), n);
    }
  }

  /** A request is denied exactly when some policy is due for it and its evaluation stops it. */
  lemma VerdictExactly(c: Context, events: seq<X.Event>, resp: Response, report: seq<Violation>)
    requires Answers(c, resp, report) && c.rules == X.Run(events)
    ensures !resp.allowed <==> exists n :: Due(c, events, n) && Stops(c, n)
  {
    forall n ensures Denies(c, n) <==> Due(c, events, n) && Stops(c, n) { DeniesRead(c, events, n); }
  }

  /** The policy says this: a message it returned, or, enforced, that its evaluation failed. */
  ghost predicate Says(c: Context, n: string, message: string)
    requires n in c.policies
  {
    match c.oracle(c.policies[n])
    case Messages(ms) => message in ms
    case EvalError => EnforcedBySome(c.groups, c.query, n) && message == "policy evaluation error: " + n
  }

  lemma ReportedRead(c: Context, n: string, message: string)
    requires Judged(c, n)
    ensures message in Reported(c, n) <==> Says(c, n, message)
  {
    ModeEnforces(c.groups, HitsOf(c, n), n);
    EnforcedExactly(c.groups, c.query, n);
  }

  /** The answer carries a message for a policy exactly when the policy is due and says so; each line
      carries the policy's description and names exactly the groups that hit it. */
  lemma ReportExactly(c: Context, events: seq<X.Event>, resp: Response, report: seq<Violation>, n: string, message: string)
    requires Answers(c, resp, report) && c.rules == X.Run(events)
    ensures (exists v :: v in report && v.policy == n && v.message == message) <==> Due(c, events, n) && Says(c, n, message)
    ensures forall v :: v in report && v.policy == n ==>
              && n in c.policies && v.description == c.policies[n].description
              && forall g :: g in v.groups <==> HitBy(c.groups, c.query, g, n)
  {
    JudgedExactly(c, events, n);
    forall v | v in report && v.policy == n
      ensures n in c.policies && v.description == c.policies[n].description
      ensures forall g :: g in v.groups <==> HitBy(c.groups, c.query, g, n)
      ensures Due(c, events, n) && Says(c, n, v.message)
    {
      ListedRead(c, resp, report, v);
    }
    if Due(c, events, n) && Says(c, n, message) {
      ReportedRead(c, n, message);
      var v := ReportedIsListed(c, resp, report, n, message);
    }
  }

  lemma ListedRead(c: Context, resp: Response, report: seq<Violation>, v: Violation)
    requires Answers(c, resp, report) && v in report
    ensures Judged(c, v.policy) && v.description == c.policies[v.policy].description && Says(c, v.policy, v.message)
    ensures forall g :: g in v.groups <==> HitBy(c.groups, c.query, g, v.policy)
  {
    ListedIsViolated(c, resp, report, v);
    ReportedRead(c, v.policy, v.message);
    GroupsRead(c, v.policy, v.groups);
  }

  lemma GroupsRead(c: Context, n: string, names: seq<string>)
    requires Elements(names) == HitsOf(c, n)
    ensures forall g :: g in names <==> HitBy(c.groups, c.query, g, n)
  {
    ElementsContents(names, |names|);
    forall g ensures g in names <==> HitBy(c.groups, c.query, g, n) {
      HitExactly(c.groups, c.query, g, n);
      assert g in names <==> g in Elements(names);
    }
  }
}
