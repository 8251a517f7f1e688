/** When the texts of an admission answer do not depend on the order in which maps are ranged over. */
module AdmissionText {
  import opened Names
  import opened Strings
  import opened PolicyMatching
  import opened Violations
  import opened Admission
  import opened AdmissionReport

  // ---- one violation ----

  lemma {:induction false} FirstsPush(values: seq<string>, more: seq<string>, x: string)
    ensures
      var r := Firsts(values, more);
      Firsts(values, more + [x]) == if x in r then r else r + [x]
    decreases |more|
  {
    if more == [] {
      assert more + [x] == [x] && [x][1..] == [];
    } else {
      assert (more + [x])[1..] == more[1..] + [x];
      FirstsPush(if more[0] in values then values else values + [more[0]], more[1..], x);
    }
  }

  lemma ElementsHolds(names: seq<string>, x: string)
    ensures x in names <==> x in Elements(names)
  {
    ElementsContents(names, |names|);
  }

  /** A list without repetitions is its own first occurrences. */
  lemma {:induction false} FirstsWhole(names: seq<string>)
    requires Enumerates(names, Elements(names))
    ensures Firsts([], names) == names
  {
    if names != [] {
      var front, last := names[..|names| - 1], names[|names| - 1];
      assert names == front + [last];
      EnumeratesPop(names);
      FirstsWhole(front);
      FirstsPush([], front, last);
      ElementsHolds(front, last);
    }
  }

  /** A text determines its policy and its groups in order. */
  lemma FormatShowsGroups(v: Violation, u: Violation)
    requires NamesValid(v) && NamesValid(u) && Format(v) == Format(u)
    requires Enumerates(v.groups, Elements(v.groups)) && Enumerates(u.groups, Elements(u.groups))
    ensures v.policy == u.policy && v.groups == u.groups
  {
    FormatShowsHeader(v, u);
    FirstsWhole(v.groups);
    FirstsWhole(u.groups);
    FirstsOfOne(v.policy);
    FirstsOfOne(u.policy);
    assert [v.policy][0] == [u.policy][0];
  }

  lemma FirstsOfOne(x: string)
    ensures Firsts([], [x]) == [x]
  {
    var none: seq<string> := [];
    assert [x][1..] == none && none + [x] == [x];
  }

  lemma {:induction false} SomeEnumeration(s: set<string>) returns (names: seq<string>)
    ensures Enumerates(names, s)
    decreases s
  {
    if s == {} {
      names := [];
    } else {
      var x := AnyOf(s);
      var rest := SomeEnumeration(s - {x});
      EnumeratesStep(rest, s - {x}, x);
      assert s - {x} + {x} == s;
      names := rest + [x];
    }
  }

  /** Two members of a set can be listed last, either way round. */
  lemma EitherWay(s: set<string>, a: string, b: string) returns (rest: seq<string>)
    requires a in s && b in s && a != b
    ensures Enumerates(rest + [a] + [b], s) && Enumerates(rest + [b] + [a], s)
  {
    rest := SomeEnumeration(s - {a, b});
    PushTwo(s, rest, a, b);
    PushTwo(s, rest, b, a);
  }

  lemma PushTwo(s: set<string>, rest: seq<string>, a: string, b: string)
    requires a in s && b in s && a != b && Enumerates(rest, s - {a, b})
    ensures Enumerates(rest + [a] + [b], s)
  {
    EnumeratesStep(rest, s - {a, b}, a);
    assert s - {a, b} + {a} == s - {b};
    EnumeratesStep(rest + [a], s - {b}, b);
    assert s - {b} + {b} == s;
  }

  lemma SmallEnumeration(gs: seq<string>, hs: seq<string>, s: set<string>)
    requires |s| <= 1 && Enumerates(gs, s) && Enumerates(hs, s)
    ensures gs == hs
  {
    ElementsContents(gs, |gs|);
    ElementsContents(hs, |hs|);
    if |s| == 1 { assert gs[0] in s && hs[0] in s; SingletonIs(s, gs[0]); }
  }

  lemma TwoMembers(s: set<string>) returns (a: string, b: string)
    requires |s| >= 2
    ensures a in s && b in s && a != b
  {
    a := AnyOf(s);
    assert |s - {a}| >= 1;
    b := AnyOf(s - {a});
  }

  lemma NotBothWays(rest: seq<string>, a: string, b: string)
    requires a != b
    ensures rest + [a] + [b] != rest + [b] + [a]
  {
    assert (rest + [a] + [b])[|rest|] == a && (rest + [b] + [a])[|rest|] == b;
  }

  /** The text of a violation is the same for every order of the groups that hit its policy, exactly
      when at most one did. */
  lemma TextOrderFree(v: Violation, hits: set<string>)
    requires ValidName(v.policy) && forall g :: g in hits ==> ValidName(g)
    ensures
      (forall gs, hs :: Enumerates(gs, hits) && Enumerates(hs, hits) ==> Format(v.(groups := gs)) == Format(v.(groups := hs))) <==>
      |hits| <= 1
  {
    if |hits| <= 1 {
      forall gs, hs | Enumerates(gs, hits) && Enumerates(hs, hits) ensures Format(v.(groups := gs)) == Format(v.(groups := hs)) {
        SmallEnumeration(gs, hs, hits);
      }
    } else {
      var a, b := TwoMembers(hits);
      var rest := EitherWay(hits, a, b);
      TextsDiffer(v, hits, rest, a, b);
    }
  }

  lemma TextsDiffer(v: Violation, hits: set<string>, rest: seq<string>, a: string, b: string)
    requires ValidName(v.policy) && (forall g :: g in hits ==> ValidName(g)) && a != b
    requires Enumerates(rest + [a] + [b], hits) && Enumerates(rest + [b] + [a], hits)
    ensures Format(v.(groups := rest + [a] + [b])) != Format(v.(groups := rest + [b] + [a]))
  {
    var gs, hs := rest + [a] + [b], rest + [b] + [a];
    NotBothWays(rest, a, b);
    NamesOfSet(gs, hits);
    NamesOfSet(hs, hits);
    if Format(v.(groups := gs)) == Format(v.(groups := hs)) { FormatShowsGroups(v.(groups := gs), v.(groups := hs)); }
  }

  // ---- whole answers ----

  /** Every violation of an answer names the groups that hit its policy, each once. */
  lemma AnswerEnumerates(c: Context, resp: Response, report: seq<Violation>, v: Violation)
    requires Answers(c, resp, report) && v in report
    ensures Enumerates(v.groups, HitsOf(c, v.policy))
  {
    var order :| GroupsInOrder(c, order, report);
    AmongEnumerates(c.groups, order, v.policy);
  }

  lemma {:induction false} CountMultiplicity(vs: seq<Violation>, v: Violation, j: nat)
    requires j <= |vs| && forall u :: u in vs && LineOf(u) == LineOf(v) ==> u == v
    ensures Count(vs, LineOf(v), j) == multiset(vs[..j])[v]
  {
    if j > 0 {
      CountMultiplicity(vs, v, j - 1);
      assert vs[..j] == vs[..j - 1] + [vs[j - 1]];
      assert vs[j - 1] in vs;
    }
  }

  lemma CountWhole(vs: seq<Violation>, v: Violation)
    requires forall u :: u in vs && LineOf(u) == LineOf(v) ==> u == v
    ensures multiset(vs)[v] == Count(vs, LineOf(v))
  {
    CountMultiplicity(vs, v, |vs|);
    assert vs[..|vs|] == vs;
  }

  lemma TextsCons(v: Violation, y: seq<Violation>)
    ensures Texts([v] + y) == [Format(v)] + Texts(y)
  {
    assert ([v] + y)[1..] == y;
  }

  lemma TextsAround(x: seq<Violation>, v: Violation, y: seq<Violation>)
    ensures multiset(Texts(x + ([v] + y))) == multiset(Texts(x + y)) + multiset{Format(v)}
  {
    TextsAppend(x, [v] + y);
    TextsCons(v, y);
    TextsAppend(x, y);
  }

  lemma CutTexts(vs: seq<Violation>, k: nat)
    requires k < |vs|
    ensures multiset(Texts(vs)) == multiset(Texts(Cut(vs, k))) + multiset{Format(vs[k])}
  {
    CutWhole(vs, k);
    TextsAround(vs[..k], vs[k], vs[k + 1..]);
  }

  lemma {:induction false} TextsPermutation(a: seq<Violation>, b: seq<Violation>)
    requires multiset(a) == multiset(b)
    ensures multiset(Texts(a)) == multiset(Texts(b))
    decreases |a|
  {
    if a == [] {
      assert |multiset(b)| == 0;
    } else {
      var k := SameHead(a, b);
      TextsPermutation(Cut(a, 0), Cut(b, k));
      CutTexts(a, 0);
      CutTexts(b, k);
    }
  }

  /** Where no violated policy was hit by two groups, two answers report the same violations. */
  lemma SameViolations(c: Context, resp: Response, report: seq<Violation>, resp': Response, report': seq<Violation>)
    requires Answers(c, resp, report) && Answers(c, resp', report')
    requires forall n :: Violated(c, n) ==> |HitsOf(c, n)| <= 1
    ensures multiset(report) == multiset(report')
  {
    forall v ensures multiset(report)[v] == multiset(report')[v] {
      if v in report {
        SameCount(c, resp, report, v, resp, report);
        SameCount(c, resp, report, v, resp', report');
      } else if v in report' {
        SameCount(c, resp', report', v, resp, report);
        SameCount(c, resp', report', v, resp', report');
      } else {
        assert v !in multiset(report) && v !in multiset(report');
      }
    }
  }

  lemma SameCount(c: Context, resp: Response, report: seq<Violation>, v: Violation, resp': Response, report': seq<Violation>)
    requires Answers(c, resp, report) && Answers(c, resp', report') && v in report
    requires forall n :: Violated(c, n) ==> |HitsOf(c, n)| <= 1
    ensures multiset(report')[v] == ExpectedCount(c, LineOf(v))
  {
    ListedIsViolated(c, resp, report, v);
    AnswerEnumerates(c, resp, report, v);
    forall u | u in report' && LineOf(u) == LineOf(v) ensures u == v {
      AnswerEnumerates(c, resp', report', u);
      SmallEnumeration(u.groups, v.groups, HitsOf(c, v.policy));
    }
    CountWhole(report', v);
  }

  /** The same violations with the groups in another order. */
  function Reordered(groups: Groups, order: seq<string>, report: seq<Violation>): seq<Violation> {
    if report == [] then []
    else [report[0].(groups := Among(groups, order, report[0].policy))] + Reordered(groups, order, report[1..])
  }

  lemma {:induction false} ReorderedAt(groups: Groups, order: seq<string>, report: seq<Violation>, i: nat)
    requires i < |report|
    ensures |Reordered(groups, order, report)| == |report|
    ensures Reordered(groups, order, report)[i] == report[i].(groups := Among(groups, order, report[i].policy))
    decreases |report|
  {
    if |report| > 1 { ReorderedAt(groups, order, report[1..], if i > 0 then i - 1 else 0); }
  }

  lemma {:induction false} SameLinesSameCount(a: seq<Violation>, b: seq<Violation>, line: Line, j: nat)
    requires j <= |a| == |b| && forall i :: 0 <= i < |a| ==> LineOf(a[i]) == LineOf(b[i])
    ensures Count(a, line, j) == Count(b, line, j)
  {
    if j > 0 { SameLinesSameCount(a, b, line, j - 1); }
  }

  lemma {:induction false} SameWordsSaid(a: seq<Violation>, b: seq<Violation>, j: nat)
    requires j <= |a| == |b| && forall i :: 0 <= i < |a| ==> a[i].policy == b[i].policy && a[i].message == b[i].message
    ensures Said(a, j) == Said(b, j)
  {
    if j > 0 { SameWordsSaid(a, b, j - 1); }
  }

  lemma ReorderedTimetable(c: Context, order: seq<string>, schedule: seq<string>, report: seq<Violation>)
    requires Timetable(c, schedule, report)
    ensures Timetable(c, schedule, Reordered(c.groups, order, report))
  {
    var report' := Reordered(c.groups, order, report);
    if report != [] { ReorderedAt(c.groups, order, report, 0); }
    forall i | 0 <= i < |report| ensures report[i].policy == report'[i].policy && report[i].message == report'[i].message {
      ReorderedAt(c.groups, order, report, i);
    }
    SameWordsSaid(report, report', |report|);
  }

  lemma ReorderedCount(c: Context, resp: Response, report: seq<Violation>, order: seq<string>, line: Line)
    requires Answers(c, resp, report) && Enumerates(order, Matching(c.groups, c.query))
    ensures Count(Reordered(c.groups, order, report), line) == Count(report, line)
  {
    var report' := Reordered(c.groups, order, report);
    if report != [] { ReorderedAt(c.groups, order, report, 0); }
    forall i | 0 <= i < |report| ensures LineOf(report[i]) == LineOf(report'[i]) {
      ReorderedAt(c.groups, order, report, i);
      AnswerEnumerates(c, resp, report, report[i]);
      AmongEnumerates(c.groups, order, report[i].policy);
    }
    SameLinesSameCount(report, report', line, |report|);
  }

  /** Any order of the matching groups gives an answer. */
  lemma ReorderedAnswers(c: Context, resp: Response, report: seq<Violation>, order: seq<string>)
    requires Answers(c, resp, report) && Enumerates(order, Matching(c.groups, c.query))
    ensures
      var report' := Reordered(c.groups, order, report);
      Answers(c, Spelled(resp.allowed, report'), report')
  {
    var report' := Reordered(c.groups, order, report);
    forall line ensures Count(report', line) == ExpectedCount(c, line) { ReorderedCount(c, resp, report, order, line); }
    ReorderedInOrder(c, order, report);
    var schedule :| Timetable(c, schedule, report);
    ReorderedTimetable(c, order, schedule, report);
    assert Spelled(resp.allowed, report').allowed == resp.allowed;
  }

  lemma ReorderedInOrder(c: Context, order: seq<string>, report: seq<Violation>)
    requires Enumerates(order, Matching(c.groups, c.query))
    ensures GroupsInOrder(c, order, Reordered(c.groups, order, report))
  {
    var report' := Reordered(c.groups, order, report);
    if report != [] { ReorderedAt(c.groups, order, report, 0); }
    forall v | v in report' ensures v.groups == Among(c.groups, order, v.policy) {
      var i :| 0 <= i < |report'| && report'[i] == v;
      ReorderedAt(c.groups, order, report, i);
    }
  }

  lemma {:induction false} TextFrom(vs: seq<Violation>, text: string) returns (v: Violation)
    requires text in Texts(vs)
    ensures v in vs && Format(v) == text
  {
    if Format(vs[0]) == text {
      v := vs[0];
    } else {
      v := TextFrom(vs[1..], text);
    }
  }

  lemma {:induction false} TextIn(vs: seq<Violation>, i: nat)
    requires i < |vs|
    ensures Format(vs[i]) in Texts(vs)
  {
    if i > 0 { TextIn(vs[1..], i - 1); }
  }

  /** An order of the matching groups that puts those of one policy in another order than `gs`. */
  lemma AnotherOrder(c: Context, n: string, gs: seq<string>) returns (order: seq<string>)
    requires |HitsOf(c, n)| >= 2
    ensures Enumerates(order, Matching(c.groups, c.query)) && Among(c.groups, order, n) != gs
  {
    var a, b := TwoMembers(HitsOf(c, n));
    var rest := EitherWay(Matching(c.groups, c.query), a, b);
    var x := Among(c.groups, rest, n);
    AmongPush(c.groups, rest, a, n);
    AmongPush(c.groups, rest + [a], b, n);
    AmongPush(c.groups, rest, b, n);
    AmongPush(c.groups, rest + [b], a, n);
    NotBothWays(x, a, b);
    order := if gs == x + [a] + [b] then rest + [b] + [a] else rest + [a] + [b];
  }

  /** Where two groups hit a violated policy, another order of the maps gives other texts. */
  lemma OtherTexts(c: Context, resp: Response, report: seq<Violation>, n: string)
    returns (resp': Response, report': seq<Violation>)
    requires Answers(c, resp, report) && Named(c)
    requires Violated(c, n) && |HitsOf(c, n)| >= 2
    ensures Answers(c, resp', report') && multiset(Texts(report')) != multiset(Texts(report))
  {
    var v := ViolatedIsListed(c, resp, report, n);
    var order := AnotherOrder(c, n, v.groups);
    report' := Reordered(c.groups, order, report);
    resp' := Spelled(resp.allowed, report');
    ReorderedAnswers(c, resp, report, order);
    var i :| 0 <= i < |report| && report[i] == v;
    TextIn(report, i);
    assert Format(v) in multiset(Texts(report));
    ReorderedInOrder(c, order, report);
    MissingText(c, resp, report, v, resp', report', order);
    assert Format(v) !in multiset(Texts(report'));
  }

  lemma MissingText(
    c: Context, resp: Response, report: seq<Violation>, v: Violation, resp': Response, report': seq<Violation>, order: seq<string>)
    requires Answers(c, resp, report) && Answers(c, resp', report') && Named(c)
    requires v in report && GroupsInOrder(c, order, report') && Among(c.groups, order, v.policy) != v.groups
    ensures Format(v) !in Texts(report')
  {
    if Format(v) in Texts(report') {
      var u := TextFrom(report', Format(v));
      ListedIsNamed(c, resp, report, v);
      ListedIsNamed(c, resp', report', u);
      AnswerEnumerates(c, resp, report, v);
      AnswerEnumerates(c, resp', report', u);
      FormatShowsGroups(v, u);
    }
  }

  /** Every answer to a request has the same texts, whatever order maps are ranged over in and
      evaluations finish in, exactly when no violated policy was hit by two groups. */
  lemma AnswerTextsExact(c: Context, resp: Response, report: seq<Violation>)
    requires Answers(c, resp, report) && Named(c)
    ensures
      (forall resp', report' :: Answers(c, resp', report') ==> multiset(Texts(report')) == multiset(Texts(report))) <==>
      forall n :: Violated(c, n) ==> |HitsOf(c, n)| <= 1
  {
    if forall n :: Violated(c, n) ==> |HitsOf(c, n)| <= 1 {
      forall resp', report' | Answers(c, resp', report') ensures multiset(Texts(report')) == multiset(Texts(report)) {
        SameViolations(c, resp, report, resp', report');
        TextsPermutation(report, report');
      }
    } else {
      var n :| Violated(c, n) && |HitsOf(c, n)| > 1;
      var resp', report' := OtherTexts(c, resp, report, n);
    }
  }
}
