/** The admission decision: matching policies, minus exempted ones, evaluated concurrently. */
module Admission {
  import opened Names
  import opened Strings
  import opened PolicyMatching
  import opened Violations
  import G = GroupResolve
  import X = ExceptionCache

  /** What evaluating a policy's Rego gives for this request. */
  datatype Outcome = Messages(messages: seq<string>) | EvalError

  type Oracle = CompiledPolicy -> Outcome

  datatype Response = Response(allowed: bool, message: string, warnings: seq<string>)

  // ---- evaluation ----

  /** The messages one evaluation reports; an error is reported only when the policy is enforced. */
  function Produced(name: string, mode: string, o: Outcome): seq<string> {
    match o
    case Messages(messages) => messages
    case EvalError => if mode == G.MODE_ENFORCE then ["policy evaluation error: " + name] else []
  }

  predicate Blocks(name: string, mode: string, o: Outcome) {
    Produced(name, mode, o) != [] && mode != G.MODE_AUDIT
  }

  datatype Result = Result(resolved: Resolved, messages: seq<string>)

  function Evaluated(r: Resolved, oracle: Oracle): Result {
    Result(r, Produced(r.policy.name, r.mode, oracle(r.policy)))
  }

  predicate Blocking(r: Resolved, oracle: Oracle) {
    Blocks(r.policy.name, r.mode, oracle(r.policy))
  }

  /** A violation up to the order in which its groups are named. */
  datatype Line = Line(policy: string, groups: set<string>, description: string, message: string)

  function LineOf(v: Violation): Line {
    Line(v.policy, Elements(v.groups), v.description, v.message)
  }

  function Count(vs: seq<Violation>, line: Line, j: nat := |vs|): nat
    requires j <= |vs|
  {
    if j == 0 then 0 else Count(vs, line, j - 1) + if LineOf(vs[j - 1]) == line then 1 else 0
  }

  function Occurrences(messages: seq<string>, m: string, j: nat := |messages|): nat
    requires j <= |messages|
  {
    if j == 0 then 0 else Occurrences(messages, m, j - 1) + if messages[j - 1] == m then 1 else 0
  }

  predicate About(r: Resolved, line: Line) {
    line.policy == r.policy.name && line.groups == Elements(r.groups) && line.description == r.policy.description
  }

  /** How often one result reports the line. */
  function LineCount(x: Result, line: Line): nat {
    if About(x.resolved, line) then Occurrences(x.messages, line.message) else 0
  }

  function ResultCount(results: seq<Result>, line: Line, j: nat := |results|): nat
    requires j <= |results|
  {
    if j == 0 then 0 else ResultCount(results, line, j - 1) + LineCount(results[j - 1], line)
  }

  /** How often the evaluations finished so far report the line. */
  function DoneCount(resolved: seq<Resolved>, oracle: Oracle, line: Line, pending: set<nat>, j: nat := |resolved|): nat
    requires j <= |resolved|
  {
    if j == 0 then 0
    else DoneCount(resolved, oracle, line, pending, j - 1) +
         if j - 1 in pending then 0 else LineCount(Evaluated(resolved[j - 1], oracle), line)
  }

  lemma {:induction false} DoneStep(resolved: seq<Resolved>, oracle: Oracle, line: Line, pending: set<nat>, i: nat, j: nat)
    requires i in pending && i < |resolved| && j <= |resolved|
    ensures DoneCount(resolved, oracle, line, pending - {i}, j) ==
            DoneCount(resolved, oracle, line, pending, j) + if i < j then LineCount(Evaluated(resolved[i], oracle), line) else 0
  {
    if j > 0 { DoneStep(resolved, oracle, line, pending, i, j - 1); }
  }

  lemma {:induction false} NoneDone(resolved: seq<Resolved>, oracle: Oracle, line: Line, pending: set<nat>, j: nat)
    requires j <= |resolved| && forall i :: 0 <= i < j ==> i in pending
    ensures DoneCount(resolved, oracle, line, pending, j) == 0
  {
    if j > 0 { NoneDone(resolved, oracle, line, pending, j - 1); }
  }

  lemma {:induction false} CountAppend(a: seq<Violation>, b: seq<Violation>, line: Line, j: nat)
    requires j <= |b|
    ensures Count(a + b, line, |a| + j) == Count(a, line) + Count(b, line, j)
  {
    if j > 0 { CountAppend(a, b, line, j - 1); } else { CountPrefix(a, a + b, line, |a|); }
  }

  lemma {:induction false} CountPrefix(a: seq<Violation>, b: seq<Violation>, line: Line, j: nat)
    requires j <= |a| && a <= b
    ensures Count(a, line, j) == Count(b, line, j)
  {
    if j > 0 { CountPrefix(a, b, line, j - 1); }
  }

  lemma {:induction false} TextsAppend(a: seq<Violation>, b: seq<Violation>)
    ensures Texts(a + b) == Texts(a) + Texts(b)
    decreases |a|
  {
    if a == [] {
      assert a + b == b;
    } else {
      assert (a + b)[1..] == a[1..] + b;
      TextsAppend(a[1..], b);
    }
  }

  function Lines(x: Result, j: nat := |x.messages|): seq<Violation>
    requires j <= |x.messages|
  {
    if j == 0 then []
    else Lines(x, j - 1) +
         [Violation(x.resolved.policy.name, x.resolved.groups, x.resolved.policy.description, x.messages[j - 1])]
  }

  lemma {:induction false} LinesCount(x: Result, line: Line, j: nat)
    requires j <= |x.messages|
    ensures Count(Lines(x, j), line) ==
            if About(x.resolved, line) then Occurrences(x.messages, line.message, j) else 0
  {
    if j > 0 {
      LinesCount(x, line, j - 1);
      LinesLength(x, j - 1);
      CountPrefix(Lines(x, j - 1), Lines(x, j), line, j - 1);
    }
  }

  lemma {:induction false} LinesLength(x: Result, j: nat)
    requires j <= |x.messages|
    ensures |Lines(x, j)| == j
  {
    if j > 0 { LinesLength(x, j - 1); }
  }

  /** The violation is one of this policy's, with its groups in the order found. */
  predicate Tells(r: Resolved, v: Violation) {
    v.policy == r.policy.name && v.groups == r.groups && v.description == r.policy.description
  }

  lemma {:induction false} LinesTell(x: Result, j: nat, v: Violation)
    requires j <= |x.messages| && v in Lines(x, j)
    ensures Tells(x.resolved, v)
  {
    if j > 0 && v in Lines(x, j - 1) { LinesTell(x, j - 1, v); }
  }

  function AllLines(results: seq<Result>, j: nat := |results|): seq<Violation>
    requires j <= |results|
  {
    if j == 0 then [] else AllLines(results, j - 1) + Lines(results[j - 1])
  }

  lemma {:induction false} AllLinesCount(results: seq<Result>, line: Line, j: nat)
    requires j <= |results|
    ensures Count(AllLines(results, j), line) == ResultCount(results, line, j)
  {
    if j > 0 {
      var more := Lines(results[j - 1]);
      AllLinesCount(results, line, j - 1);
      CountAppend(AllLines(results, j - 1), more, line, |more|);
      LinesCount(results[j - 1], line, |results[j - 1].messages|);
    }
  }

  lemma {:induction false} AllLinesTell(results: seq<Result>, v: Violation, j: nat) returns (x: Result)
    requires j <= |results| && v in AllLines(results, j)
    ensures x in results && Tells(x.resolved, v)
  {
    if v in AllLines(results, j - 1) {
      x := AllLinesTell(results, v, j - 1);
    } else {
      x := results[j - 1];
      LinesTell(x, |x.messages|, v);
    }
  }

  /** The formatting loops. */
  method Print(results: seq<Result>) returns (texts: seq<string>)
    ensures texts == Texts(AllLines(results))
  {
    texts := [];
    for i := 0 to |results|
      invariant texts == Texts(AllLines(results, i))
    {
      var more := PrintResult(results[i]);
      TextsAppend(AllLines(results, i), Lines(results[i]));
      texts := texts + more;
    }
  }

  method PrintResult(x: Result) returns (texts: seq<string>)
    ensures texts == Texts(Lines(x))
  {
    texts := [];
    for i := 0 to |x.messages|
      invariant texts == Texts(Lines(x, i))
    {
      var v := Violation(x.resolved.policy.name, x.resolved.groups, x.resolved.policy.description, x.messages[i]);
      TextsAppend(Lines(x, i), [v]);
      assert [v][1..] == [];
      texts := texts + [Format(v)];
    }
  }

  ghost predicate SomeBlocks(resolved: seq<Resolved>, oracle: Oracle) {
    exists i :: 0 <= i < |resolved| && Blocking(resolved[i], oracle)
  }

  /** The result goes to the audit list, or to the other one. */
  predicate Filed(x: Result, audit: bool) {
    x.messages != [] && (x.resolved.mode == G.MODE_AUDIT <==> audit)
  }

  /** What is filed in one of the lists when the evaluations finish in this order. */
  function Finished(resolved: seq<Resolved>, oracle: Oracle, order: seq<nat>, audit: bool): seq<Result>
    requires forall k :: 0 <= k < |order| ==> order[k] < |resolved|
  {
    if order == [] then []
    else
      var front, x := order[..|order| - 1], Evaluated(resolved[order[|order| - 1]], oracle);
      Finished(resolved, oracle, front, audit) + if Filed(x, audit) then [x] else []
  }

  lemma FinishedPush(resolved: seq<Resolved>, oracle: Oracle, order: seq<nat>, audit: bool, i: nat)
    requires i < |resolved| && forall k :: 0 <= k < |order| ==> order[k] < |resolved|
    ensures
      var x := Evaluated(resolved[i], oracle);
      Finished(resolved, oracle, order + [i], audit) == Finished(resolved, oracle, order, audit) + if Filed(x, audit) then [x] else []
  {
    assert (order + [i])[..|order + [i]| - 1] == order;
  }

  /** Every position below `n` once, except those in `pending`. */
  ghost predicate EachOnce(order: seq<nat>, n: nat, pending: set<nat>) {
    && (forall i: nat :: i in order <==> i < n && i !in pending)
    && (forall k :: 0 <= k < |order| ==> order[k] < n)
    && (forall k, l :: 0 <= k < l < |order| ==> order[k] != order[l])
  }

  lemma EachOncePush(order: seq<nat>, n: nat, pending: set<nat>, i: nat)
    requires EachOnce(order, n, pending) && i in pending && i < n
    ensures EachOnce(order + [i], n, pending - {i})
  {
    assert i !in order;
  }

  lemma EachOncePop(order: seq<nat>, n: nat, pending: set<nat>)
    requires EachOnce(order, n, pending) && order != []
    ensures
      var front, i := order[..|order| - 1], order[|order| - 1];
      EachOnce(front, n, pending + {i}) && i !in pending && i < n
  {
    var front, i := order[..|order| - 1], order[|order| - 1];
    assert order == front + [i];
    assert i in order;
    assert forall k :: 0 <= k < |front| ==> front[k] == order[k];
    assert i !in front;
  }

  /** The two lists hold the results in this order of finishing, in which every evaluation finishes once. */
  ghost predicate FiledIn(resolved: seq<Resolved>, oracle: Oracle, order: seq<nat>, enforce: seq<Result>, audit: seq<Result>) {
    && EachOnce(order, |resolved|, {})
    && enforce == Finished(resolved, oracle, order, false) && audit == Finished(resolved, oracle, order, true)
  }

  /** The goroutines: each evaluates its policy and files the result under the mutex, in whatever
      order they get there. */
  method EvaluateAll(resolved: seq<Resolved>, oracle: Oracle) returns (enforce: seq<Result>, audit: seq<Result>)
    ensures exists order :: FiledIn(resolved, oracle, order, enforce, audit)
  {
    enforce, audit := [], [];
    ghost var order: seq<nat> := [];
    var pending: set<nat> := {};
    for i := 0 to |resolved|
      invariant forall k :: k in pending <==> 0 <= k < i
    {
      pending := pending + {i};
    }
    while pending != {}
      invariant forall i :: i in pending ==> i < |resolved|
      invariant EachOnce(order, |resolved|, pending)
      invariant enforce == Finished(resolved, oracle, order, false) && audit == Finished(resolved, oracle, order, true)
      decreases pending
    {
      var i := PickAny(pending);
      enforce, audit := File(enforce, audit, Evaluated(resolved[i], oracle));
      FinishedPush(resolved, oracle, order, false, i);
      FinishedPush(resolved, oracle, order, true, i);
      EachOncePush(order, |resolved|, pending, i);
      order := order + [i];
      pending := pending - {i};
    }
    assert FiledIn(resolved, oracle, order, enforce, audit);
  }

  /** One goroutine's critical section. */
  method File(enforce: seq<Result>, audit: seq<Result>, x: Result) returns (enforce': seq<Result>, audit': seq<Result>)
    ensures enforce' == enforce + (if Filed(x, false) then [x] else []) && audit' == audit + if Filed(x, true) then [x] else []
  {
    enforce', audit' := enforce, audit;
    if x.messages == [] { return; }
    if x.resolved.mode == G.MODE_AUDIT { audit' := audit + [x]; } else { enforce' := enforce + [x]; }
  }

  /** Whatever the order, each evaluation reports its lines once, blocking or audited. */
  lemma {:induction false} FinishedCount(resolved: seq<Resolved>, oracle: Oracle, order: seq<nat>, pending: set<nat>, line: Line)
    requires EachOnce(order, |resolved|, pending)
    ensures ResultCount(Finished(resolved, oracle, order, false), line) + ResultCount(Finished(resolved, oracle, order, true), line) ==
            DoneCount(resolved, oracle, line, pending)
    decreases |order|
  {
    if order == [] {
      NoneDone(resolved, oracle, line, pending, |resolved|);
    } else {
      var front, i := order[..|order| - 1], order[|order| - 1];
      EachOncePop(order, |resolved|, pending);
      FinishedCount(resolved, oracle, front, pending + {i}, line);
      DoneStep(resolved, oracle, line, pending + {i}, i, |resolved|);
      assert pending + {i} - {i} == pending;
      FiledCount(Finished(resolved, oracle, front, false), Evaluated(resolved[i], oracle), false, line);
      FiledCount(Finished(resolved, oracle, front, true), Evaluated(resolved[i], oracle), true, line);
    }
  }

  lemma FiledCount(xs: seq<Result>, x: Result, audit: bool, line: Line)
    ensures ResultCount(xs + (if Filed(x, audit) then [x] else []), line) ==
            ResultCount(xs, line) + if Filed(x, audit) then LineCount(x, line) else 0
    ensures x.messages == [] ==> LineCount(x, line) == 0
  {
    if Filed(x, audit) { ResultPrefix(xs, xs + [x], line, |xs|); } else { assert xs + [] == xs; }
  }

  lemma {:induction false} FinishedBlocks(resolved: seq<Resolved>, oracle: Oracle, order: seq<nat>)
    requires forall k :: 0 <= k < |order| ==> order[k] < |resolved|
    ensures Finished(resolved, oracle, order, false) != [] <==> exists i :: i in order && Blocking(resolved[i], oracle)
    decreases |order|
  {
    if order != [] {
      var front, i := order[..|order| - 1], order[|order| - 1];
      assert order == front + [i];
      FinishedBlocks(resolved, oracle, front);
    }
  }

  lemma {:induction false} FinishedFrom(resolved: seq<Resolved>, oracle: Oracle, order: seq<nat>, audit: bool, x: Result)
    requires forall k :: 0 <= k < |order| ==> order[k] < |resolved|
    requires x in Finished(resolved, oracle, order, audit)
    ensures x.resolved in resolved
    decreases |order|
  {
    var front := order[..|order| - 1];
    if x in Finished(resolved, oracle, front, audit) { FinishedFrom(resolved, oracle, front, audit, x); }
  }

  lemma {:induction false} ResultPrefix(a: seq<Result>, b: seq<Result>, line: Line, j: nat)
    requires j <= |a| && a <= b
    ensures ResultCount(a, line, j) == ResultCount(b, line, j)
  {
    if j > 0 { ResultPrefix(a, b, line, j - 1); }
  }

  /** The report is that of the evaluations finishing in this order: first what blocks, then what is audited. */
  ghost predicate Scheduled(resolved: seq<Resolved>, oracle: Oracle, order: seq<nat>, report: seq<Violation>) {
    && EachOnce(order, |resolved|, {})
    && report == AllLines(Finished(resolved, oracle, order, false)) + AllLines(Finished(resolved, oracle, order, true))
  }

  lemma NothingScheduled(oracle: Oracle)
    ensures Scheduled([], oracle, [], [])
  {
  }

  /** The answer: a denial if anything blocks, with what blocks spelled out before what is audited. */
  method Assemble(enforce: seq<Result>, audit: seq<Result>) returns (resp: Response)
    ensures resp == Spelled(enforce == [], AllLines(enforce) + AllLines(audit))
  {
    var enforceTexts := Print(enforce);
    var auditTexts := Print(audit);
    TextsAppend(AllLines(enforce), AllLines(audit));
    if enforce != [] {
      resp := Response(false, Join(enforceTexts + auditTexts, "\n\n"), []);
    } else {
      assert AllLines(enforce) + AllLines(audit) == AllLines(audit);
      resp := Response(true, "", auditTexts);
    }
  }

  lemma ReportCount(enforce: seq<Result>, audit: seq<Result>, line: Line)
    ensures Count(AllLines(enforce) + AllLines(audit), line) == ResultCount(enforce, line) + ResultCount(audit, line)
  {
    CountAppend(AllLines(enforce), AllLines(audit), line, |AllLines(audit)|);
    AllLinesCount(enforce, line, |enforce|);
    AllLinesCount(audit, line, |audit|);
  }

  lemma ReportTells(enforce: seq<Result>, audit: seq<Result>, v: Violation) returns (x: Result)
    requires v in AllLines(enforce) + AllLines(audit)
    ensures (x in enforce || x in audit) && Tells(x.resolved, v)
  {
    if v in AllLines(enforce) { x := AllLinesTell(enforce, v, |enforce|); } else { x := AllLinesTell(audit, v, |audit|); }
  }

  /** What the evaluations finishing in this order amount to. */
  lemma ScheduledMeans(resolved: seq<Resolved>, oracle: Oracle, order: seq<nat>, report: seq<Violation>)
    requires Scheduled(resolved, oracle, order, report)
    ensures Finished(resolved, oracle, order, false) != [] <==> SomeBlocks(resolved, oracle)
    ensures forall line :: Count(report, line) == DoneCount(resolved, oracle, line, {})
    ensures forall v :: v in report ==> exists r :: r in resolved && Tells(r, v)
  {
    var enforce, audit := Finished(resolved, oracle, order, false), Finished(resolved, oracle, order, true);
    FinishedBlocks(resolved, oracle, order);
    forall line ensures Count(report, line) == DoneCount(resolved, oracle, line, {}) {
      ReportCount(enforce, audit, line);
      FinishedCount(resolved, oracle, order, {}, line);
    }
    forall v | v in report ensures exists r :: r in resolved && Tells(r, v) {
      var x := ReportTells(enforce, audit, v);
      if x in enforce { FinishedFrom(resolved, oracle, order, false, x); } else { FinishedFrom(resolved, oracle, order, true, x); }
    }
  }

  /** `evaluate`: `report` is the list of violations the response spells out. */
  method Evaluate(resolved: seq<Resolved>, oracle: Oracle) returns (resp: Response, report: seq<Violation>)
    ensures exists order :: Scheduled(resolved, oracle, order, report)
    ensures !resp.allowed <==> SomeBlocks(resolved, oracle)
    ensures resp == Spelled(resp.allowed, report)
    ensures forall line :: Count(report, line) == DoneCount(resolved, oracle, line, {})
    ensures forall v :: v in report ==> exists r :: r in resolved && Tells(r, v)
  {
    ghost var order: seq<nat>;
    if resolved == [] {
      resp, report, order := Response(true, "", []), [], [];
      NothingScheduled(oracle);
    } else {
      var enforce, audit := EvaluateAll(resolved, oracle);
      order :| FiledIn(resolved, oracle, order, enforce, audit);
      resp := Assemble(enforce, audit);
      report := AllLines(enforce) + AllLines(audit);
    }
    assert Scheduled(resolved, oracle, order, report);
    ScheduledMeans(resolved, oracle, order, report);
  }

  /** A denial carries the violations joined by blank lines, an admission as warnings. */
  function Spelled(allowed: bool, report: seq<Violation>): Response {
    if allowed then Response(true, "", Texts(report)) else Response(false, Join(Texts(report), "\n\n"), [])
  }

  // ---- the whole decision ----

  /** Everything a decision depends on. */
  datatype Context = Context(
    policies: Policies,
    groups: Groups,
    rules: map<string, X.Rule>,
    query: Query,
    subject: X.Request,
    oracle: Oracle)

  function Candidate(p: CompiledPolicy): X.CandidatePolicy {
    X.CandidatePolicy(p.name, p.referencedBy)
  }

  /** Some active exception covers the request and targets the policy. */
  ghost predicate Spared(c: Context, p: CompiledPolicy) {
    exists n :: n in c.rules && X.Covers(c.rules[n], c.subject) && X.Targets(c.rules[n], Candidate(p))
  }

  /** The policy is evaluated for this request. */
  ghost predicate Judged(c: Context, n: string) {
    Selected(c.policies, c.groups, c.query, n) && !Spared(c, c.policies[n])
  }

  function HitsOf(c: Context, n: string): set<string> {
    Hits(c.groups, Matching(c.groups, c.query), n)
  }

  ghost predicate Denies(c: Context, n: string) {
    Judged(c, n) && Blocks(n, ModeFor(c.groups, HitsOf(c, n), n), c.oracle(c.policies[n]))
  }

  /** The messages the policy reports. */
  ghost function Reported(c: Context, n: string): seq<string>
    requires Judged(c, n)
  {
    Produced(n, ModeFor(c.groups, HitsOf(c, n), n), c.oracle(c.policies[n]))
  }

  /** How often the answer must spell out the line. */
  ghost function ExpectedCount(c: Context, line: Line): nat {
    var n := line.policy;
    if Judged(c, n) && line.groups == HitsOf(c, n) && line.description == c.policies[n].description then
      Occurrences(Reported(c, n), line.message)
    else 0
  }

  /** Exactly the judged policies, each once. */
  ghost predicate Remaining(c: Context, out: seq<Resolved>) {
    && (forall i :: 0 <= i < |out| ==> Right(c.policies, c.groups, c.query, out[i]) && Judged(c, out[i].policy.name))
    && Unrepeated(out)
    && (forall n :: Judged(c, n) ==> Present(out, n))
    && (exists order :: Ordered(c.groups, c.query, order, out))
  }

  lemma {:induction false} OnlyOneCounts(c: Context, out: seq<Resolved>, line: Line, i: int, j: nat)
    requires j <= |out| && Unrepeated(out)
    requires i < |out| && forall k :: 0 <= k < j && out[k].policy.name == line.policy ==> k == i
    ensures DoneCount(out, c.oracle, line, {}, j) == if 0 <= i < j then LineCount(Evaluated(out[i], c.oracle), line) else 0
  {
    if j > 0 { OnlyOneCounts(c, out, line, i, j - 1); }
  }

  lemma RightLineCount(c: Context, r: Resolved, line: Line)
    requires Right(c.policies, c.groups, c.query, r) && Judged(c, r.policy.name) && line.policy == r.policy.name
    ensures LineCount(Evaluated(r, c.oracle), line) == ExpectedCount(c, line)
  {
  }

  lemma RemainingCount(c: Context, out: seq<Resolved>, line: Line)
    requires Remaining(c, out)
    ensures DoneCount(out, c.oracle, line, {}) == ExpectedCount(c, line)
  {
    if Present(out, line.policy) {
      var i :| 0 <= i < |out| && out[i].policy.name == line.policy;
      OnlyOneCounts(c, out, line, i, |out|);
      RightLineCount(c, out[i], line);
    } else {
      OnlyOneCounts(c, out, line, -1, |out|);
      assert !Judged(c, line.policy);
    }
  }

  lemma RemainingDenies(c: Context, out: seq<Resolved>)
    requires Remaining(c, out)
    ensures SomeBlocks(out, c.oracle) <==> exists n :: Denies(c, n)
  {
    if SomeBlocks(out, c.oracle) {
      var i :| 0 <= i < |out| && Blocking(out[i], c.oracle);
      assert Denies(c, out[i].policy.name);
    }
    if n :| Denies(c, n) {
      assert Present(out, n);
      var i :| 0 <= i < |out| && out[i].policy.name == n;
      assert Blocking(out[i], c.oracle);
    }
  }

  lemma RemainingOrder(c: Context, out: seq<Resolved>, report: seq<Violation>)
    requires Remaining(c, out) && forall v :: v in report ==> exists r :: r in out && Tells(r, v)
    ensures exists order :: GroupsInOrder(c, order, report)
  {
    var order :| Ordered(c.groups, c.query, order, out);
    forall v | v in report ensures v.groups == Among(c.groups, order, v.policy) {
      var r :| r in out && Tells(r, v);
      var i :| 0 <= i < |out| && out[i] == r;
      assert NamedInOrder(c.groups, order, out[i]);
    }
    assert GroupsInOrder(c, order, report);
  }

  // ---- the order of an answer ----

  function Said(report: seq<Violation>, j: nat := |report|): seq<(string, string)>
    requires j <= |report|
  {
    if j == 0 then [] else Said(report, j - 1) + [(report[j - 1].policy, report[j - 1].message)]
  }

  function Tagged(n: string, messages: seq<string>, j: nat := |messages|): seq<(string, string)>
    requires j <= |messages|
  {
    if j == 0 then [] else Tagged(n, messages, j - 1) + [(n, messages[j - 1])]
  }

  ghost predicate Audited(c: Context, n: string) {
    Judged(c, n) && ModeFor(c.groups, HitsOf(c, n), n) == G.MODE_AUDIT
  }

  /** What the audited policies say, or the others, when they finish in this order. */
  ghost function Spoken(c: Context, schedule: seq<string>, audit: bool): seq<(string, string)> {
    if schedule == [] then []
    else
      var front, n := schedule[..|schedule| - 1], schedule[|schedule| - 1];
      Spoken(c, front, audit) + if Judged(c, n) && (Audited(c, n) <==> audit) then Tagged(n, Reported(c, n)) else []
  }

  /** Each judged policy finishes once, in the order given. The report has the messages of each policy
      together and in their own order: first the policies that are not audited, then the audited ones. */
  ghost predicate Timetable(c: Context, schedule: seq<string>, report: seq<Violation>) {
    && (forall n :: n in schedule <==> Judged(c, n))
    && (forall i, j :: 0 <= i < j < |schedule| ==> schedule[i] != schedule[j])
    && Said(report) == Spoken(c, schedule, false) + Spoken(c, schedule, true)
  }

  lemma {:induction false} SaidAppend(a: seq<Violation>, b: seq<Violation>, j: nat)
    requires j <= |b|
    ensures Said(a + b, |a| + j) == Said(a) + Said(b, j)
  {
    if j > 0 { SaidAppend(a, b, j - 1); } else { SaidPrefix(a, a + b, |a|); }
  }

  lemma {:induction false} SaidPrefix(a: seq<Violation>, b: seq<Violation>, j: nat)
    requires j <= |a| && a <= b
    ensures Said(a, j) == Said(b, j)
  {
    if j > 0 { SaidPrefix(a, b, j - 1); }
  }

  lemma {:induction false} LinesSaid(x: Result, j: nat)
    requires j <= |x.messages|
    ensures Said(Lines(x, j)) == Tagged(x.resolved.policy.name, x.messages, j)
  {
    if j > 0 {
      LinesSaid(x, j - 1);
      LinesLength(x, j - 1);
      LinesLength(x, j);
      SaidPrefix(Lines(x, j - 1), Lines(x, j), j - 1);
    }
  }

  function NamesAt(out: seq<Resolved>, order: seq<nat>): (r: seq<string>)
    requires forall k :: 0 <= k < |order| ==> order[k] < |out|
    ensures |r| == |order| && forall k :: 0 <= k < |order| ==> r[k] == out[order[k]].policy.name
  {
    if order == [] then [] else NamesAt(out, order[..|order| - 1]) + [out[order[|order| - 1]].policy.name]
  }

  lemma {:induction false} FinishedSaid(c: Context, out: seq<Resolved>, order: seq<nat>, audit: bool)
    requires forall i :: 0 <= i < |out| ==> Right(c.policies, c.groups, c.query, out[i]) && Judged(c, out[i].policy.name)
    requires forall k :: 0 <= k < |order| ==> order[k] < |out|
    ensures Said(AllLines(Finished(out, c.oracle, order, audit))) == Spoken(c, NamesAt(out, order), audit)
    decreases |order|
  {
    if order != [] {
      var front, i := order[..|order| - 1], order[|order| - 1];
      FinishedSaid(c, out, front, audit);
      assert NamesAt(out, order)[..|order| - 1] == NamesAt(out, front);
      FiledSaid(Finished(out, c.oracle, front, audit), Evaluated(out[i], c.oracle), audit);
      EvaluatedSays(c, out[i], audit);
    }
  }

  lemma FiledSaid(xs: seq<Result>, x: Result, audit: bool)
    ensures Said(AllLines(xs + if Filed(x, audit) then [x] else [])) ==
            Said(AllLines(xs)) + if Filed(x, audit) then Tagged(x.resolved.policy.name, x.messages) else []
  {
    if Filed(x, audit) {
      AllLinesPrefix(xs, xs + [x], |xs|);
      SaidAppend(AllLines(xs), Lines(x), |Lines(x)|);
      LinesSaid(x, |x.messages|);
    } else {
      assert xs + [] == xs;
    }
  }

  lemma {:induction false} AllLinesPrefix(a: seq<Result>, b: seq<Result>, j: nat)
    requires j <= |a| && a <= b
    ensures AllLines(a, j) == AllLines(b, j)
  {
    if j > 0 { AllLinesPrefix(a, b, j - 1); }
  }

  lemma EvaluatedSays(c: Context, r: Resolved, audit: bool)
    requires Right(c.policies, c.groups, c.query, r) && Judged(c, r.policy.name)
    ensures
      var x, n := Evaluated(r, c.oracle), r.policy.name;
      && x.resolved.policy.name == n
      && (if Filed(x, audit) then Tagged(n, x.messages) else []) ==
         if Audited(c, n) <==> audit then Tagged(n, Reported(c, n)) else []
  {
  }

  lemma ScheduleNames(c: Context, out: seq<Resolved>, order: seq<nat>, n: string)
    requires Remaining(c, out) && EachOnce(order, |out|, {})
    ensures n in NamesAt(out, order) <==> Judged(c, n)
  {
    var schedule := NamesAt(out, order);
    if n in schedule {
      var k :| 0 <= k < |schedule| && schedule[k] == n;
      assert Judged(c, out[order[k]].policy.name);
    }
    if Judged(c, n) {
      assert Present(out, n);
      var i: nat :| i < |out| && out[i].policy.name == n;
      assert i in order;
      var k :| 0 <= k < |order| && order[k] == i;
      assert schedule[k] == n;
    }
  }

  lemma ScheduleOnce(out: seq<Resolved>, order: seq<nat>, i: nat, j: nat)
    requires Unrepeated(out) && EachOnce(order, |out|, {}) && i < j < |order|
    ensures NamesAt(out, order)[i] != NamesAt(out, order)[j]
  {
    assert order[i] != order[j];
    if order[i] < order[j] { assert out[order[i]].policy.name != out[order[j]].policy.name; }
  }

  lemma RemainingTimetable(c: Context, out: seq<Resolved>, order: seq<nat>, report: seq<Violation>)
    requires Remaining(c, out) && Scheduled(out, c.oracle, order, report)
    ensures Timetable(c, NamesAt(out, order), report)
  {
    FinishedSaid(c, out, order, false);
    FinishedSaid(c, out, order, true);
    var a, b := AllLines(Finished(out, c.oracle, order, false)), AllLines(Finished(out, c.oracle, order, true));
    SaidAppend(a, b, |b|);
    forall n ensures n in NamesAt(out, order) <==> Judged(c, n) { ScheduleNames(c, out, order, n); }
    forall i, j | 0 <= i < j < |order| ensures NamesAt(out, order)[i] != NamesAt(out, order)[j] { ScheduleOnce(out, order, i, j); }
  }

  /** The policies of the resolved list, as the exception cache sees them. */
  method Candidates(resolved: seq<Resolved>) returns (r: seq<X.CandidatePolicy>)
    ensures |r| == |resolved| && forall i :: 0 <= i < |r| ==> r[i] == Candidate(resolved[i].policy)
  {
    r := [];
    for i := 0 to |resolved|
      invariant |r| == i && forall k :: 0 <= k < i ==> r[k] == Candidate(resolved[k].policy)
    {
      r := r + [Candidate(resolved[i].policy)];
    }
  }

  lemma ExemptIsSpared(c: Context, resolved: seq<Resolved>, candidates: seq<X.CandidatePolicy>, i: nat)
    requires Unrepeated(resolved) && i < |resolved| && |candidates| == |resolved|
    requires forall k :: 0 <= k < |candidates| ==> candidates[k] == Candidate(resolved[k].policy)
    ensures X.Exempt(c.rules, c.subject, candidates, resolved[i].policy.name) <==> Spared(c, resolved[i].policy)
  {
    var p := resolved[i].policy;
    if X.Exempt(c.rules, c.subject, candidates, p.name) {
      var n :| n in c.rules && X.Covers(c.rules[n], c.subject) && X.TargetsName(c.rules[n], candidates, p.name);
      var q :| q in candidates && q.name == p.name && X.Targets(c.rules[n], q);
      var k :| 0 <= k < |candidates| && candidates[k] == q;
      assert k == i;
    }
    if Spared(c, p) {
      var n :| n in c.rules && X.Covers(c.rules[n], c.subject) && X.Targets(c.rules[n], Candidate(p));
      assert candidates[i] == Candidate(p);
      assert X.TargetsName(c.rules[n], candidates, p.name);
    }
  }

  ghost predicate Filtered(resolved: seq<Resolved>, exempt: set<string>, out: seq<Resolved>) {
    && Unrepeated(out)
    && (forall r :: r in out <==> r in resolved && r.policy.name !in exempt)
  }

  /** The filtering loop. */
  method Filter(resolved: seq<Resolved>, exempt: set<string>) returns (out: seq<Resolved>)
    requires Unrepeated(resolved)
    ensures Filtered(resolved, exempt, out)
  {
    out := [];
    for i := 0 to |resolved|
      invariant Unrepeated(out)
      invariant forall r :: r in out <==> r in resolved[..i] && r.policy.name !in exempt
    {
      assert resolved[..i + 1] == resolved[..i] + [resolved[i]];
      if resolved[i].policy.name !in exempt { out := out + [resolved[i]]; }
    }
    assert resolved[..|resolved|] == resolved;
  }

  lemma FilteredRemains(c: Context, resolved: seq<Resolved>, exempt: set<string>, out: seq<Resolved>)
    requires Faithful(c.policies, c.groups, c.query, resolved) && Filtered(resolved, exempt, out)
    requires forall i :: 0 <= i < |resolved| ==> (resolved[i].policy.name in exempt <==> Spared(c, resolved[i].policy))
    ensures Remaining(c, out)
  {
    forall k | 0 <= k < |out| ensures Right(c.policies, c.groups, c.query, out[k]) && Judged(c, out[k].policy.name) {
      assert out[k] in out;
      var i :| 0 <= i < |resolved| && resolved[i] == out[k];
    }
    var order :| Ordered(c.groups, c.query, order, resolved);
    forall k | 0 <= k < |out| ensures NamedInOrder(c.groups, order, out[k]) {
      assert out[k] in out;
      var i :| 0 <= i < |resolved| && resolved[i] == out[k];
      assert NamedInOrder(c.groups, order, resolved[i]);
    }
    assert Ordered(c.groups, c.query, order, out);
    forall n | Judged(c, n) ensures Present(out, n) {
      assert Present(resolved, n);
      var i :| 0 <= i < |resolved| && resolved[i].policy.name == n;
      assert resolved[i] in out;
      var k :| 0 <= k < |out| && out[k] == resolved[i];
      assert out[k].policy.name == n;
    }
  }

  /** Matching, then exemption. */
  method Judge(cache: PolicyCache, exceptions: X.Cache, query: Query, subject: X.Request, ghost oracle: Oracle)
    returns (out: seq<Resolved>)
    requires cache.Valid() && exceptions.Valid()
    ensures Remaining(Context(cache.policies, cache.groups, exceptions.Rules(), query, subject, oracle), out)
  {
    ghost var c := Context(cache.policies, cache.groups, exceptions.Rules(), query, subject, oracle);
    var resolved := cache.MatchingForRequest(query);
    var candidates := Candidates(resolved);
    var exempt := exceptions.ExemptedKeys(subject, candidates);
    out := Filter(resolved, exempt);
    forall i | 0 <= i < |resolved| ensures resolved[i].policy.name in exempt <==> Spared(c, resolved[i].policy) {
      ExemptIsSpared(c, resolved, candidates, i);
    }
    FilteredRemains(c, resolved, exempt, out);
  }

  /** The decision part of `ServeHTTP`. Whatever order the maps are ranged over in and whatever order
      the evaluations finish in, the verdict and the reported lines are these functions of the inputs. */
  method Review(cache: PolicyCache, exceptions: X.Cache, query: Query, subject: X.Request, oracle: Oracle)
    returns (resp: Response, report: seq<Violation>)
    requires cache.Valid() && exceptions.Valid()
    ensures Answers(Context(cache.policies, cache.groups, exceptions.Rules(), query, subject, oracle), resp, report)
  {
    ghost var c := Context(cache.policies, cache.groups, exceptions.Rules(), query, subject, oracle);
    var out := Judge(cache, exceptions, query, subject, oracle);
    resp, report := Evaluate(out, oracle);
    ghost var order :| Scheduled(out, oracle, order, report);
    RemainingDenies(c, out);
    RemainingOrder(c, out, report);
    RemainingTimetable(c, out, order, report);
    forall line ensures Count(report, line) == ExpectedCount(c, line) { RemainingCount(c, out, line); }
  }

  /** Every violation names the groups that hit its policy, each once, in the order given. */
  ghost predicate GroupsInOrder(c: Context, order: seq<string>, report: seq<Violation>) {
    && Enumerates(order, Matching(c.groups, c.query))
    && forall v :: v in report ==> v.groups == Among(c.groups, order, v.policy)
  }

  /** Denied exactly when some policy denies, with every expected line spelled out as often as expected,
      the groups of all lines named in one order of the matching groups, and the lines in the order in
      which the evaluations finished, those of audited policies last. */
  ghost predicate Answers(c: Context, resp: Response, report: seq<Violation>) {
    && (!resp.allowed <==> exists n :: Denies(c, n))
    && resp == Spelled(resp.allowed, report)
    && (forall line :: Count(report, line) == ExpectedCount(c, line))
    && (exists order :: GroupsInOrder(c, order, report))
    && (exists schedule :: Timetable(c, schedule, report))
  }

  // ---- what the verdict means ----

  /** Some matching group enforces the policy. */
  ghost predicate Enforced(c: Context, n: string) {
    AnyEnforce(c.groups, HitsOf(c, n), n)
  }

  predicate Complains(o: Outcome) {
    o.EvalError? || o.messages != []
  }

  /** Every matching group that lists the policy gives it audit or enforce. */
  ghost predicate KnownModes(c: Context, n: string) {
    forall g :: g in HitsOf(c, n) ==> c.groups[g].members[n] in {G.MODE_AUDIT, G.MODE_ENFORCE}
  }

  /** The promised rule holds for a policy exactly outside this case: a single group lists it, with a
      mode other than audit and enforce, and it returns a message. Then it denies all the same. */
  ghost predicate OddMode(c: Context, n: string)
    requires Judged(c, n)
  {
    && |HitsOf(c, n)| == 1
    && ModeFor(c.groups, HitsOf(c, n), n) !in {G.MODE_AUDIT, G.MODE_ENFORCE}
    && c.oracle(c.policies[n]).Messages? && c.oracle(c.policies[n]).messages != []
  }

  lemma DeniesExactly(c: Context, n: string)
    requires Judged(c, n)
    ensures (Denies(c, n) <==> Enforced(c, n) && Complains(c.oracle(c.policies[n]))) <==> !OddMode(c, n)
  {
    ModeEnforces(c.groups, HitsOf(c, n), n);
  }

  /** With known modes: denied exactly when some policy whose rules admit the request, that is not
      exempt and that a matching group enforces, complains. */
  lemma DeniedIffEnforced(c: Context)
    requires forall n :: Judged(c, n) ==> KnownModes(c, n)
    ensures
      (exists n :: Denies(c, n)) <==>
      exists n :: Demanded(c.policies, c.groups, c.query, n) && !Spared(c, c.policies[n]) &&
                  EnforcedBySome(c.groups, c.query, n) && Complains(c.oracle(c.policies[n]))
  {
    forall n ensures Denies(c, n) <==>
      Demanded(c.policies, c.groups, c.query, n) && !Spared(c, c.policies[n]) &&
      EnforcedBySome(c.groups, c.query, n) && Complains(c.oracle(c.policies[n]))
    {
      SelectedExactly(c.policies, c.groups, c.query, n);
      EnforcedExactly(c.groups, c.query, n);
      if Judged(c, n) {
        assert KnownModes(c, n);
        DeniesExactly(c, n);
      }
    }
  }

  // ---- concrete contexts ----

  /** One policy that matches every request, listed by one enabled group without a selector. */
  function OnePolicy(mode: string, labels: Option<G.Labels>, outcome: Outcome): Context {
    var p := CompiledPolicy("p", "", PolicyMatch([MatchResource(["*"], ["*"])], ["*"]), ["g"]);
    Context(map["p" := p], map["g" := CompiledGroup("g", true, None, map["p" := mode])], map[],
            Query("pods", "", "CREATE", labels), X.Request("ns", labels, map[]), (_: CompiledPolicy) => outcome)
  }

  lemma OnePolicyJudged(mode: string, labels: Option<G.Labels>, outcome: Outcome)
    ensures
      var c := OnePolicy(mode, labels, outcome);
      Judged(c, "p") && HitsOf(c, "p") == {"g"} && ModeFor(c.groups, {"g"}, "p") == mode
  {
    var c := OnePolicy(mode, labels, outcome);
    assert MatchesResource(c.policies["p"].match_.resources[0], c.query.resource, c.query.apiGroup);
    assert "g" in HitsOf(c, "p");
    assert HitsOf(c, "p") == {"g"};
    SingletonIs({"g"}, AnyOf({"g"}));
  }

  /** An unset mode denies although no group enforces the policy. */
  lemma UnsetModeDenies(labels: Option<G.Labels>, message: string)
    ensures
      var c := OnePolicy("", labels, Messages([message]));
      Denies(c, "p") && !Enforced(c, "p") && OddMode(c, "p")
  {
    OnePolicyJudged("", labels, Messages([message]));
  }

  // ---- a failed namespace lookup ----

  /** The policy's own rules admit the request, and an enabled group without a selector lists it. */
  ghost predicate ListedUnselected(c: Context, n: string) {
    && n in c.policies && Admits(c.policies[n].match_, c.query)
    && exists g :: g in c.groups && c.groups[g].enabled && c.groups[g].namespaceSelector.None? && n in c.groups[g].members
  }

  /** A failed lookup amounts to no rules being evaluated exactly when every policy that an enabled
      group without a selector puts on the request is exempt. */
  lemma FailedLookupEvaluatesNothing(c: Context)
    requires c.query.namespaceLabels == None
    ensures (forall n :: !Judged(c, n)) <==> forall n :: ListedUnselected(c, n) ==> Spared(c, c.policies[n])
  {
    forall n ensures Judged(c, n) <==> ListedUnselected(c, n) && !Spared(c, c.policies[n]) { FailedLookupJudges(c, n); }
  }

  lemma FailedLookupJudges(c: Context, n: string)
    requires c.query.namespaceLabels == None
    ensures Judged(c, n) <==> ListedUnselected(c, n) && !Spared(c, c.policies[n])
  {
    if n in c.policies { AdmitsExactly(c.policies[n].match_, c.query); }
    if Selected(c.policies, c.groups, c.query, n) {
      var g := AnyOf(HitsOf(c, n));
      assert g in c.groups && c.groups[g].namespaceSelector.None?;
    }
    if ListedUnselected(c, n) {
      var g :| g in c.groups && c.groups[g].enabled && c.groups[g].namespaceSelector.None? && n in c.groups[g].members;
      assert g in HitsOf(c, n);
    }
  }

  /** After a failed lookup a request can still be denied. */
  lemma FailedLookupDenies(message: string)
    ensures
      var c := OnePolicy(G.MODE_ENFORCE, None, Messages([message]));
      c.query.namespaceLabels == None && c.subject.namespaceLabels == None && Denies(c, "p")
  {
    OnePolicyJudged(G.MODE_ENFORCE, None, Messages([message]));
  }
}
