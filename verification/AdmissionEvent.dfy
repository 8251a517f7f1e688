/** When the event built from an admission answer names exactly what was violated, whatever the
    messages and descriptions of the policies say. */
module AdmissionEvent {
  import opened Names
  import opened Strings
  import opened PolicyMatching
  import opened Violations
  import opened Admission
  import opened AdmissionReport

  // ---- what lines add, as sets ----

  predicate LinePolicy(raw: string, x: string) {
    HeaderLike(raw) && x != "" && TrimSpace(NamedPolicy(Bracketed(raw))) == x
  }

  predicate LineGroup(raw: string, x: string) {
    HeaderLike(raw) && x != "" && Trimmed(NamedGroups(Bracketed(raw)), x)
  }

  predicate Trimmed(names: seq<string>, x: string) {
    exists i :: 0 <= i < |names| && TrimSpace(names[i]) == x
  }

  predicate SomePolicy(lines: seq<string>, x: string) {
    exists i :: 0 <= i < |lines| && LinePolicy(lines[i], x)
  }

  predicate SomeGroup(lines: seq<string>, x: string) {
    exists i :: 0 <= i < |lines| && LineGroup(lines[i], x)
  }

  lemma {:induction false} AddAllHolds(values: seq<string>, more: seq<string>, x: string)
    ensures x in AddAll(values, more) <==> x in values || (x != "" && Trimmed(more, x))
    decreases |more|
  {
    if more != [] {
      AddAllHolds(Add(values, more[0]), more[1..], x);
      assert forall i :: 1 <= i < |more| ==> more[i] == more[1..][i - 1];
      assert forall i :: 0 <= i < |more| - 1 ==> more[1..][i] == more[i + 1];
    }
  }

  lemma LineHolds(refs: References, raw: string, x: string)
    ensures x in ParseLine(refs, raw).policies <==> x in refs.policies || LinePolicy(raw, x)
    ensures x in ParseLine(refs, raw).groups <==> x in refs.groups || LineGroup(raw, x)
  {
    if HeaderLike(raw) {
      var inner := Bracketed(raw);
      AddAllHolds(refs.groups, NamedGroups(inner), x);
      assert ParseLine(refs, raw) == ParseHeader(refs, inner);
      assert ParseHeader(refs, inner) == References(Add(refs.policies, NamedPolicy(inner)), AddAll(refs.groups, NamedGroups(inner)));
    }
  }

  lemma SomeCons(lines: seq<string>, x: string)
    requires lines != []
    ensures SomePolicy(lines, x) <==> LinePolicy(lines[0], x) || SomePolicy(lines[1..], x)
    ensures SomeGroup(lines, x) <==> LineGroup(lines[0], x) || SomeGroup(lines[1..], x)
  {
    assert forall i :: 1 <= i < |lines| ==> lines[i] == lines[1..][i - 1];
    assert forall i :: 0 <= i < |lines| - 1 ==> lines[1..][i] == lines[i + 1];
  }

  lemma {:induction false} LinesHold(refs: References, lines: seq<string>, x: string)
    ensures x in ParseLines(refs, lines).policies <==> x in refs.policies || SomePolicy(lines, x)
    ensures x in ParseLines(refs, lines).groups <==> x in refs.groups || SomeGroup(lines, x)
    decreases |lines|
  {
    if lines != [] {
      LineHolds(refs, lines[0], x);
      LinesHold(ParseLine(refs, lines[0]), lines[1..], x);
      SomeCons(lines, x);
    }
  }

  /** The printed violation is read as naming the policy: its own, or one of a further line. */
  predicate TellsPolicy(v: Violation, x: string) {
    v.policy == x || SomePolicy(FurtherLines(v), x)
  }

  predicate TellsGroup(v: Violation, x: string) {
    x in v.groups || SomeGroup(FurtherLines(v), x)
  }

  lemma FormatHolds(refs: References, v: Violation, x: string)
    requires NamesValid(v)
    ensures x in ParseLines(refs, Split(Format(v), '\n')).policies <==> x in refs.policies || TellsPolicy(v, x)
    ensures x in ParseLines(refs, Split(Format(v), '\n')).groups <==> x in refs.groups || TellsGroup(v, x)
  {
    FormatParsed(refs, v);
    LinesHold(After(refs, v), FurtherLines(v), x);
    FirstsHolds(refs.policies, [v.policy], x);
    FirstsHolds(refs.groups, v.groups, x);
  }

  /** A whole answer is read as naming what one of its violations is read as naming. */
  lemma {:induction false} TextsHold(refs: References, vs: seq<Violation>, x: string)
    requires forall v :: v in vs ==> NamesValid(v)
    ensures x in Parse(refs, Texts(vs)).policies <==> x in refs.policies || exists v :: v in vs && TellsPolicy(v, x)
    ensures x in Parse(refs, Texts(vs)).groups <==> x in refs.groups || exists v :: v in vs && TellsGroup(v, x)
    decreases |vs|
  {
    if vs != [] {
      FormatHolds(refs, vs[0], x);
      TextsHold(ParseLines(refs, Split(Format(vs[0]), '\n')), vs[1..], x);
      assert Texts(vs)[1..] == Texts(vs[1..]);
      assert vs == [vs[0]] + vs[1..];
    }
  }

  // ---- the event ----

  /** The group hit a policy that was violated. */
  ghost predicate Involved(c: Context, g: string) {
    exists n :: Violated(c, n) && g in HitsOf(c, n)
  }

  function Event(resp: Response): References {
    Parse(NOTHING, EventTexts(resp))
  }

  /** The event is right about the name, as a policy and as a group. */
  ghost predicate RightAbout(c: Context, resp: Response, x: string) {
    && (x in Event(resp).policies <==> Violated(c, x))
    && (x in Event(resp).groups <==> Involved(c, x))
  }

  /** The line is no header, or names only violated policies and the groups that hit them. */
  ghost predicate NothingElse(c: Context, raw: string) {
    HeaderLike(raw) ==>
      && PolicyOrBlank(c, TrimSpace(NamedPolicy(Bracketed(raw))))
      && forall i :: 0 <= i < |NamedGroups(Bracketed(raw))| ==> GroupOrBlank(c, TrimSpace(NamedGroups(Bracketed(raw))[i]))
  }

  ghost predicate PolicyOrBlank(c: Context, x: string) {
    x == "" || Violated(c, x)
  }

  ghost predicate GroupOrBlank(c: Context, x: string) {
    x == "" || Involved(c, x)
  }

  lemma NothingElseNamed(c: Context, raw: string)
    ensures NothingElse(c, raw) <==>
            && (forall x :: LinePolicy(raw, x) ==> Violated(c, x))
            && (forall x :: LineGroup(raw, x) ==> Involved(c, x))
  {
    if HeaderLike(raw) {
      var p, gs := TrimSpace(NamedPolicy(Bracketed(raw))), NamedGroups(Bracketed(raw));
      assert p != "" ==> LinePolicy(raw, p);
      assert forall i :: 0 <= i < |gs| && TrimSpace(gs[i]) != "" ==> LineGroup(raw, TrimSpace(gs[i]));
    }
  }

  /** The lines the message and the policy's description continue with. */
  ghost function Continued(c: Context, n: string, m: string): seq<string>
    requires Judged(c, n)
  {
    FurtherLines(Violation(n, [], c.policies[n].description, m))
  }

  /** Every further line of every text reported names nothing but what was violated. */
  ghost predicate Modest(c: Context) {
    forall n, m :: Violated(c, n) && m in Reported(c, n) ==> AllModest(c, Continued(c, n, m))
  }

  ghost predicate AllModest(c: Context, lines: seq<string>) {
    forall i :: 0 <= i < |lines| ==> NothingElse(c, lines[i])
  }

  lemma EventHolds(c: Context, resp: Response, report: seq<Violation>, x: string)
    requires Answers(c, resp, report) && Named(c)
    ensures x in Event(resp).policies <==> exists v :: v in report && TellsPolicy(v, x)
    ensures x in Event(resp).groups <==> exists v :: v in report && TellsGroup(v, x)
  {
    forall v | v in report ensures NamesValid(v) { ListedIsNamed(c, resp, report, v); }
    TextsHold(NOTHING, report, x);
    if !resp.allowed { DenyForm(NOTHING, Texts(report)); }
  }

  lemma ListedModest(c: Context, resp: Response, report: seq<Violation>, v: Violation, i: nat)
    requires Answers(c, resp, report) && Modest(c) && v in report && i < |FurtherLines(v)|
    ensures forall x :: LinePolicy(FurtherLines(v)[i], x) ==> Violated(c, x)
    ensures forall x :: LineGroup(FurtherLines(v)[i], x) ==> Involved(c, x)
  {
    ListedIsViolated(c, resp, report, v);
    assert FurtherLines(v) == Continued(c, v.policy, v.message);
    assert AllModest(c, Continued(c, v.policy, v.message));
    NothingElseNamed(c, FurtherLines(v)[i]);
  }

  lemma ListedPolicy(c: Context, resp: Response, report: seq<Violation>, v: Violation, x: string)
    requires Answers(c, resp, report) && Modest(c) && v in report && TellsPolicy(v, x)
    ensures Violated(c, x)
  {
    if v.policy == x {
      ListedIsViolated(c, resp, report, v);
    } else {
      var i: nat :| i < |FurtherLines(v)| && LinePolicy(FurtherLines(v)[i], x);
      ListedModest(c, resp, report, v, i);
    }
  }

  lemma ListedGroup(c: Context, resp: Response, report: seq<Violation>, v: Violation, x: string)
    requires Answers(c, resp, report) && Modest(c) && v in report && TellsGroup(v, x)
    ensures Involved(c, x)
  {
    if x in v.groups {
      ListedIsViolated(c, resp, report, v);
      ElementsContents(v.groups, |v.groups|);
    } else {
      var i: nat :| i < |FurtherLines(v)| && LineGroup(FurtherLines(v)[i], x);
      ListedModest(c, resp, report, v, i);
    }
  }

  lemma InvolvedIsListed(c: Context, resp: Response, report: seq<Violation>, x: string) returns (v: Violation)
    requires Answers(c, resp, report) && Involved(c, x)
    ensures v in report && TellsGroup(v, x)
  {
    var n :| Violated(c, n) && x in HitsOf(c, n);
    v := ViolatedIsListed(c, resp, report, n);
    ElementsContents(v.groups, |v.groups|);
  }

  lemma ModestIsRight(c: Context, resp: Response, report: seq<Violation>, x: string)
    requires Answers(c, resp, report) && Named(c) && Modest(c)
    ensures RightAbout(c, resp, x)
  {
    EventHolds(c, resp, report, x);
    if v :| v in report && TellsPolicy(v, x) { ListedPolicy(c, resp, report, v, x); }
    if v :| v in report && TellsGroup(v, x) { ListedGroup(c, resp, report, v, x); }
    if Violated(c, x) { var v := ViolatedIsListed(c, resp, report, x); }
    if Involved(c, x) { var v := InvolvedIsListed(c, resp, report, x); }
  }

  lemma RightIsModest(c: Context, resp: Response, report: seq<Violation>, n: string, m: string)
    requires Answers(c, resp, report) && Named(c) && Violated(c, n) && m in Reported(c, n)
    requires forall x :: RightAbout(c, resp, x)
    ensures AllModest(c, Continued(c, n, m))
  {
    var v := ReportedIsListed(c, resp, report, n, m);
    var lines := Continued(c, n, m);
    assert FurtherLines(v) == lines;
    forall i | 0 <= i < |lines| ensures NothingElse(c, lines[i]) {
      forall x ensures LinePolicy(lines[i], x) ==> Violated(c, x)
               ensures LineGroup(lines[i], x) ==> Involved(c, x)
      {
        EventHolds(c, resp, report, x);
        assert RightAbout(c, resp, x);
        assert LinePolicy(lines[i], x) ==> TellsPolicy(v, x);
        assert LineGroup(lines[i], x) ==> TellsGroup(v, x);
      }
      NothingElseNamed(c, lines[i]);
    }
  }

  /** The event names exactly the violated policies and the groups that hit them exactly when every
      further line of every reported message and description is no header, or names only those. */
  lemma EventExactWhen(c: Context, resp: Response, report: seq<Violation>)
    requires Answers(c, resp, report) && Named(c)
    ensures (forall x :: RightAbout(c, resp, x)) <==> Modest(c)
  {
    if Modest(c) {
      forall x ensures RightAbout(c, resp, x) {
        ModestIsRight(c, resp, report, x);
      }
    }
    if forall x :: RightAbout(c, resp, x) {
      forall n, m | Violated(c, n) && m in Reported(c, n) ensures AllModest(c, Continued(c, n, m)) {
        RightIsModest(c, resp, report, n, m);
      }
    }
  }
}
