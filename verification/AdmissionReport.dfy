/** From the admission answer to the event: what the parser reads out of the answer is exactly what
    was violated. */
module AdmissionReport {
  import opened Names
  import opened Strings
  import opened PolicyMatching
  import opened Violations
  import opened Admission

  /** The texts an event is built from: the denial message, or the warnings. */
  function EventTexts(resp: Response): seq<string> {
    if resp.allowed then resp.warnings else [resp.message]
  }

  /** Audit list and denial read back alike. */
  lemma AnswerReadBack(allowed: bool, report: seq<Violation>)
    requires forall i :: 0 <= i < |report| ==> Readable(report[i])
    ensures Parse(NOTHING, EventTexts(Spelled(allowed, report))) == Expected(NOTHING, report)
  {
    RoundTrip(NOTHING, report);
    if !allowed { DenyForm(NOTHING, Texts(report)); }
  }

  lemma {:induction false} ExpectedPolicies(refs: References, vs: seq<Violation>, x: string)
    ensures x in Expected(refs, vs).policies <==> x in refs.policies || exists v :: v in vs && v.policy == x
    decreases |vs|
  {
    if vs != [] {
      FirstsHolds(refs.policies, [vs[0].policy], x);
      ExpectedPolicies(After(refs, vs[0]), vs[1..], x);
      assert vs == [vs[0]] + vs[1..];
    }
  }

  lemma {:induction false} ExpectedGroups(refs: References, vs: seq<Violation>, x: string)
    ensures x in Expected(refs, vs).groups <==> x in refs.groups || exists v :: v in vs && x in v.groups
    decreases |vs|
  {
    if vs != [] {
      FirstsHolds(refs.groups, vs[0].groups, x);
      ExpectedGroups(After(refs, vs[0]), vs[1..], x);
      assert vs == [vs[0]] + vs[1..];
    }
  }

  lemma {:induction false} CountedIsListed(vs: seq<Violation>, line: Line, j: nat)
    requires j <= |vs|
    ensures Count(vs, line, j) > 0 <==> exists i :: 0 <= i < j && LineOf(vs[i]) == line
  {
    if j > 0 { CountedIsListed(vs, line, j - 1); }
  }

  lemma {:induction false} OccursIsIn(messages: seq<string>, m: string, j: nat)
    requires j <= |messages|
    ensures Occurrences(messages, m, j) > 0 <==> exists i :: 0 <= i < j && messages[i] == m
  {
    if j > 0 { OccursIsIn(messages, m, j - 1); }
  }

  /** The policy is judged and has something to report. */
  ghost predicate Violated(c: Context, n: string) {
    Judged(c, n) && Reported(c, n) != []
  }

  lemma LineExpected(c: Context, line: Line)
    ensures ExpectedCount(c, line) > 0 <==>
            && Judged(c, line.policy) && line.groups == HitsOf(c, line.policy)
            && line.description == c.policies[line.policy].description && line.message in Reported(c, line.policy)
  {
    if Judged(c, line.policy) {
      OccursIsIn(Reported(c, line.policy), line.message, |Reported(c, line.policy)|);
    }
  }

  /** What each violation of an answer says is so. */
  lemma ListedIsViolated(c: Context, resp: Response, report: seq<Violation>, v: Violation)
    requires Answers(c, resp, report) && v in report
    ensures Violated(c, v.policy) && Elements(v.groups) == HitsOf(c, v.policy)
    ensures v.description == c.policies[v.policy].description && v.message in Reported(c, v.policy)
  {
    CountedIsListed(report, LineOf(v), |report|);
    assert Count(report, LineOf(v)) == ExpectedCount(c, LineOf(v));
    LineExpected(c, LineOf(v));
  }

  /** Every reported message is in the answer, with its policy's groups and description. */
  lemma ReportedIsListed(c: Context, resp: Response, report: seq<Violation>, n: string, m: string) returns (v: Violation)
    requires Answers(c, resp, report) && Judged(c, n) && m in Reported(c, n)
    ensures v in report && v.policy == n && Elements(v.groups) == HitsOf(c, n)
    ensures v.description == c.policies[n].description && v.message == m
  {
    var line := Line(n, HitsOf(c, n), c.policies[n].description, m);
    LineExpected(c, line);
    assert Count(report, line) == ExpectedCount(c, line);
    CountedIsListed(report, line, |report|);
    var i :| 0 <= i < |report| && LineOf(report[i]) == line;
    v := report[i];
  }

  /** Every violated policy is in the answer, with its groups. */
  lemma ViolatedIsListed(c: Context, resp: Response, report: seq<Violation>, n: string) returns (v: Violation)
    requires Answers(c, resp, report) && Violated(c, n)
    ensures v in report && v.policy == n && Elements(v.groups) == HitsOf(c, n)
  {
    v := ReportedIsListed(c, resp, report, n, Reported(c, n)[0]);
  }

  /** Names as section 2.1 of RFC 1123 has them, and texts without bracketed further lines. */
  ghost predicate Tidy(c: Context, n: string)
    requires Judged(c, n)
  {
    && ValidName(n)
    && (forall g :: g in HitsOf(c, n) ==> ValidName(g))
    && Tame(c.policies[n].description)
    && (forall m :: c.oracle(c.policies[n]).Messages? && m in c.oracle(c.policies[n]).messages ==> Tame(m))
  }

  lemma ReportedTame(c: Context, n: string, m: string)
    requires Judged(c, n) && Tidy(c, n) && m in Reported(c, n)
    ensures Tame(m)
  {
    if c.oracle(c.policies[n]).EvalError? { SingleLineTame(m); }
  }

  lemma ListedIsReadable(c: Context, resp: Response, report: seq<Violation>, v: Violation)
    requires Answers(c, resp, report) && v in report && forall n :: Judged(c, n) ==> Tidy(c, n)
    ensures Readable(v)
  {
    ListedIsViolated(c, resp, report, v);
    assert Tidy(c, v.policy);
    ReportedTame(c, v.policy, v.message);
    NamesOfSet(v.groups, HitsOf(c, v.policy));
  }

  /** Names as section 2.1 of RFC 1123 has them. */
  ghost predicate Named(c: Context) {
    forall n :: Judged(c, n) ==> ValidName(n) && forall g :: g in HitsOf(c, n) ==> ValidName(g)
  }

  lemma ListedIsNamed(c: Context, resp: Response, report: seq<Violation>, v: Violation)
    requires Answers(c, resp, report) && v in report && Named(c)
    ensures NamesValid(v)
  {
    ListedIsViolated(c, resp, report, v);
    NamesOfSet(v.groups, HitsOf(c, v.policy));
  }

  lemma NamesOfSet(names: seq<string>, s: set<string>)
    requires Elements(names) == s && forall g :: g in s ==> ValidName(g)
    ensures ValidNames(names)
  {
    ElementsContents(names, |names|);
    forall i | 0 <= i < |names| ensures ValidName(names[i]) {
      assert names[i] in s;
    }
  }

  /** The event names a policy exactly when the request violated it, and a group exactly when it hit
      such a policy: for audit and denial, whatever the map order and the schedule were. */
  lemma EventIsExact(c: Context, resp: Response, report: seq<Violation>, x: string)
    requires Answers(c, resp, report) && forall n :: Judged(c, n) ==> Tidy(c, n)
    ensures x in Parse(NOTHING, EventTexts(resp)).policies <==> Violated(c, x)
    ensures x in Parse(NOTHING, EventTexts(resp)).groups <==> exists n :: Violated(c, n) && x in HitsOf(c, n)
  {
    forall i | 0 <= i < |report| ensures Readable(report[i]) { ListedIsReadable(c, resp, report, report[i]); }
    AnswerReadBack(resp.allowed, report);
    EventPolicies(c, resp, report, x);
    EventGroups(c, resp, report, x);
  }

  lemma EventPolicies(c: Context, resp: Response, report: seq<Violation>, x: string)
    requires Answers(c, resp, report)
    ensures x in Expected(NOTHING, report).policies <==> Violated(c, x)
  {
    ExpectedPolicies(NOTHING, report, x);
    if v :| v in report && v.policy == x { ListedIsViolated(c, resp, report, v); }
    if Violated(c, x) { var v := ViolatedIsListed(c, resp, report, x); }
  }

  lemma EventGroups(c: Context, resp: Response, report: seq<Violation>, x: string)
    requires Answers(c, resp, report)
    ensures x in Expected(NOTHING, report).groups <==> exists n :: Violated(c, n) && x in HitsOf(c, n)
  {
    ExpectedGroups(NOTHING, report, x);
    if v :| v in report && x in v.groups {
      ListedIsViolated(c, resp, report, v);
      ElementsContents(v.groups, |v.groups|);
      assert x in HitsOf(c, v.policy);
    }
    if n :| Violated(c, n) && x in HitsOf(c, n) {
      var v := ViolatedIsListed(c, resp, report, n);
      ElementsContents(v.groups, |v.groups|);
    }
  }

  /** The text itself does depend on the order: two groups named the other way round print differently. */
  lemma TextFollowsGroupOrder(v: Violation, a: string, b: string)
    requires ValidName(v.policy) && ValidName(a) && ValidName(b) && a != b
    ensures LineOf(v.(groups := [a, b])) == LineOf(v.(groups := [b, a]))
    ensures Format(v.(groups := [a, b])) != Format(v.(groups := [b, a]))
  {
    SameLine(v, a, b);
    Pair(a, b);
    Pair(b, a);
    assert [a, b][0] != [b, a][0];
    if Format(v.(groups := [a, b])) == Format(v.(groups := [b, a])) {
      FormatShowsHeader(v.(groups := [a, b]), v.(groups := [b, a]));
    }
  }

  lemma SameLine(v: Violation, a: string, b: string)
    requires a != b
    ensures LineOf(v.(groups := [a, b])) == LineOf(v.(groups := [b, a]))
  {
    Pair(a, b);
    Pair(b, a);
    assert {a, b} == {b, a};
  }

  lemma Pair(a: string, b: string)
    requires a != b
    ensures Elements([a, b]) == {a, b} && Firsts([], [a, b]) == [a, b]
  {
    var s := [a, b];
    assert Elements(s, 1) == Elements(s, 0) + {a};
    assert Elements(s, 2) == Elements(s, 1) + {b};
    assert s[1..] == [b] && [b][1..] == [];
    var none: seq<string> := [];
    assert none + [a] == [a];
    assert Firsts(none, s) == Firsts([a], [b]) == Firsts([a] + [b], none);
  }
}
