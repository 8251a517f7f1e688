/** The violation lines an admission answer carries, and the parser that reads the policies and
    groups back out of them. */
module Violations {
  import opened Strings

  datatype Violation = Violation(policy: string, groups: seq<string>, description: string, message: string)

  function Header(v: Violation): string {
    "[" + v.policy + (if v.groups == [] then "" else " via " + Join(v.groups, ",")) + "]"
  }

  const DESCRIPTION_PREFIX := "  描述："

  /** `formatViolation`. */
  function Format(v: Violation): string {
    Header(v) + " " + v.message + (if v.description == "" then "" else "\n" + DESCRIPTION_PREFIX + v.description)
  }

  function Texts(vs: seq<Violation>): seq<string> {
    if vs == [] then [] else [Format(vs[0])] + Texts(vs[1..])
  }

  // ---- the parser ----

  datatype References = References(policies: seq<string>, groups: seq<string>)

  function Add(values: seq<string>, value: string): seq<string> {
    var v := TrimSpace(value);
    if v == "" || v in values then values else values + [v]
  }

  function AddAll(values: seq<string>, more: seq<string>): seq<string>
    decreases |more|
  {
    if more == [] then values else AddAll(Add(values, more[0]), more[1..])
  }

  /** What one line adds. */
  function ParseLine(refs: References, raw: string): References {
    var line := TrimSpace(raw);
    if line == "" || line[0] != '[' then refs
    else
      var end := IndexOf(line, ']');
      if end <= 1 then refs else ParseHeader(refs, line[1..end])
  }

  const VIA := " via "

  /** The text between the brackets. */
  function ParseHeader(refs: References, inner: string): References {
    var cut := IndexOfText(inner, VIA);
    if cut < 0 then refs.(policies := Add(refs.policies, inner))
    else References(Add(refs.policies, inner[..cut]), AddAll(refs.groups, Split(inner[cut + |VIA|..], ',')))
  }

  function ParseLines(refs: References, lines: seq<string>): References
    decreases |lines|
  {
    if lines == [] then refs else ParseLines(ParseLine(refs, lines[0]), lines[1..])
  }

  /** `AdmissionEventReferences`, after some texts have been read. */
  function Parse(refs: References, texts: seq<string>): References
    decreases |texts|
  {
    if texts == [] then refs else Parse(ParseLines(refs, Split(texts[0], '\n')), texts[1..])
  }

  const NOTHING := References([], [])

  // ---- what should come back ----

  /** A list without its repetitions, in the order of first occurrence. */
  function Firsts(values: seq<string>, more: seq<string>): seq<string>
    decreases |more|
  {
    if more == [] then values
    else Firsts(if more[0] in values then values else values + [more[0]], more[1..])
  }

  function Expected(refs: References, vs: seq<Violation>): References
    decreases |vs|
  {
    if vs == [] then refs
    else Expected(After(refs, vs[0]), vs[1..])
  }

  function After(refs: References, v: Violation): References {
    References(Firsts(refs.policies, [v.policy]), Firsts(refs.groups, v.groups))
  }

  // ---- round trip ----

  predicate NameChar(c: char) {
    'a' <= c <= 'z' || 'A' <= c <= 'Z' || '0' <= c <= '9' || c == '-' || c == '.'
  }

  /** Covers the host names of section 2.1 of RFC 1123. */
  predicate ValidName(s: string) {
    s != "" && forall i :: 0 <= i < |s| ==> NameChar(s[i])
  }

  predicate ValidNames(names: seq<string>) {
    forall i :: 0 <= i < |names| ==> ValidName(names[i])
  }

  /** A line the parser takes for a violation header. */
  predicate HeaderLike(raw: string) {
    var line := TrimSpace(raw);
    line != "" && line[0] == '[' && IndexOf(line, ']') > 1
  }

  /** No line after the first looks like a header; every single-line text is such. */
  predicate Tame(s: string) {
    forall i :: 1 <= i < |Split(s, '\n')| ==> !HeaderLike(Split(s, '\n')[i])
  }

  predicate Readable(v: Violation) {
    ValidName(v.policy) && ValidNames(v.groups) && Tame(v.message) && Tame(v.description)
  }

  lemma SingleLineTame(s: string)
    requires '\n' !in s
    ensures Tame(s)
  {
    SplitWhole(s, '\n');
  }

  lemma {:induction false} ParseLinesAppend(refs: References, a: seq<string>, b: seq<string>)
    ensures ParseLines(refs, a + b) == ParseLines(ParseLines(refs, a), b)
    decreases |a|
  {
    if a == [] {
      assert a + b == b;
    } else {
      assert (a + b)[1..] == a[1..] + b;
      ParseLinesAppend(ParseLine(refs, a[0]), a[1..], b);
    }
  }

  lemma {:induction false} NoHeaders(refs: References, lines: seq<string>)
    requires forall i :: 0 <= i < |lines| ==> !HeaderLike(lines[i])
    ensures ParseLines(refs, lines) == refs
    decreases |lines|
  {
    if lines != [] { NoHeaders(ParseLine(refs, lines[0]), lines[1..]); }
  }

  lemma NameIsTrimmed(s: string)
    requires ValidName(s)
    ensures TrimSpace(s) == s
  {
  }

  lemma {:induction false} AddAllFirsts(values: seq<string>, names: seq<string>)
    requires ValidNames(names)
    ensures AddAll(values, names) == Firsts(values, names)
    decreases |names|
  {
    if names != [] {
      NameIsTrimmed(names[0]);
      AddAllFirsts(Add(values, names[0]), names[1..]);
    }
  }

  lemma JoinNames(names: seq<string>)
    requires ValidNames(names)
    ensures ']' !in Join(names, ",") && '\n' !in Join(names, ",")
    decreases |names|
  {
    if |names| > 1 { JoinNames(names[1..]); }
  }

  function Inner(v: Violation): string {
    v.policy + (if v.groups == [] then "" else VIA + Join(v.groups, ","))
  }

  lemma AddName(values: seq<string>, n: string)
    requires ValidName(n)
    ensures Add(values, n) == Firsts(values, [n])
  {
    NameIsTrimmed(n);
    assert [n][1..] == [];
  }

  lemma InnerParsed(refs: References, v: Violation)
    requires ValidName(v.policy) && ValidNames(v.groups)
    ensures ParseHeader(refs, Inner(v)) == After(refs, v)
  {
    AddName(refs.policies, v.policy);
    if v.groups == [] {
      InnerWithoutGroups(v);
    } else {
      ViaCut(v);
      AddAllFirsts(refs.groups, v.groups);
    }
  }

  lemma InnerWithoutGroups(v: Violation)
    requires ValidName(v.policy) && v.groups == []
    ensures Inner(v) == v.policy && IndexOfText(Inner(v), VIA) == -1
  {
    IndexNowhere(v.policy, VIA);
  }

  lemma HeaderSurvivesTrim(header: string, rest: string)
    requires header != "" && header[0] == '[' && header[|header| - 1] == ']'
    ensures header <= TrimSpace(header + rest)
  {
    assert (header + rest)[0] == '[';
    assert TrimLeft(header + rest) == header + rest;
    TrimRightKeeps(header, rest);
  }

  lemma HeaderShape(v: Violation)
    requires ValidName(v.policy) && ValidNames(v.groups)
    ensures Header(v) == "[" + Inner(v) + "]" && ']' !in Inner(v) && '\n' !in Header(v)
  {
    JoinNames(v.groups);
  }

  lemma HeaderLine(refs: References, raw: string, inner: string)
    requires "[" + inner + "]" <= TrimSpace(raw) && ']' !in inner && inner != ""
    ensures ParseLine(refs, raw) == ParseHeader(refs, inner)
  {
    var line := TrimSpace(raw);
    HeaderEnd(line, inner);
    assert line[0] == ("[" + inner + "]")[0];
  }

  /** A header line is read back, whatever follows it on the line. */
  lemma HeaderParsed(refs: References, v: Violation, rest: string)
    requires ValidName(v.policy) && ValidNames(v.groups)
    ensures ParseLine(refs, Header(v) + rest) == After(refs, v)
  {
    HeaderShape(v);
    HeaderSurvivesTrim(Header(v), rest);
    HeaderLine(refs, Header(v) + rest, Inner(v));
    InnerParsed(refs, v);
  }

  lemma HeaderEnd(line: string, inner: string)
    requires "[" + inner + "]" <= line && ']' !in inner
    ensures IndexOf(line, ']') == 1 + |inner| && line[1..1 + |inner|] == inner
  {
    var end := IndexOf(line, ']');
    var header := "[" + inner + "]";
    assert line[..|header|] == header;
    assert line[1 + |inner|] == header[1 + |inner|] == ']';
    assert line[1..1 + |inner|] == header[1..1 + |inner|] == inner;
    assert line[0] == header[0] == '[';
  }

  lemma ViaCut(v: Violation)
    requires ValidName(v.policy) && ValidNames(v.groups) && v.groups != []
    ensures
      var cut := IndexOfText(Inner(v), VIA);
      && cut == |v.policy|
      && Inner(v)[..cut] == v.policy
      && Split(Inner(v)[cut + |VIA|..], ',') == v.groups
  {
    var joined := Join(v.groups, ",");
    assert Inner(v) == v.policy + VIA + joined;
    IndexAfter(v.policy, VIA, joined);
    SplitJoin(v.groups, ',');
    assert [','] == ",";
    assert Inner(v)[|v.policy| + |VIA|..] == joined;
  }

  predicate NamesValid(v: Violation) {
    ValidName(v.policy) && ValidNames(v.groups)
  }

  lemma FormatStart(v: Violation)
    requires NamesValid(v)
    ensures "[" + Inner(v) + "]" <= Format(v) && ']' !in Inner(v)
  {
    HeaderShape(v);
    assert Format(v)[..|Header(v)|] == Header(v);
  }

  lemma SameInner(text: string, a: string, b: string)
    requires "[" + a + "]" <= text && "[" + b + "]" <= text && ']' !in a && ']' !in b
    ensures a == b
  {
    HeaderEnd(text, a);
    HeaderEnd(text, b);
  }

  /** A text determines what its header reads as, whatever the message and the description say. */
  lemma FormatShowsHeader(v: Violation, u: Violation)
    requires NamesValid(v) && NamesValid(u) && Format(v) == Format(u)
    ensures After(NOTHING, v) == After(NOTHING, u)
  {
    FormatStart(v);
    FormatStart(u);
    SameInner(Format(v), Inner(v), Inner(u));
    InnerParsed(NOTHING, v);
    InnerParsed(NOTHING, u);
  }

  lemma DescriptionIgnored(d: string)
    ensures !HeaderLike(DESCRIPTION_PREFIX + d)
  {
    var marked := "描述：" + d;
    var raw := DESCRIPTION_PREFIX + d;
    assert raw[1..][1..] == marked;
    assert TrimLeft(raw) == TrimLeft(raw[1..]) == TrimLeft(marked) == marked;
    assert marked == "描" + marked[1..];
    TrimRightKeeps("描", marked[1..]);
    assert "描" <= TrimSpace(raw);
    assert TrimSpace(raw)[0] == "描"[0];
  }

  lemma FirstLine(v: Violation)
    requires ValidName(v.policy) && ValidNames(v.groups)
    ensures
      var pieces := Split(v.message, '\n');
      Split(Header(v) + " " + v.message, '\n') == [Header(v) + (" " + pieces[0])] + pieces[1..]
  {
    HeaderShape(v);
    Append(Header(v), " ", Split(v.message, '\n')[0]);
    SplitPrefix(Header(v) + " ", v.message, '\n');
  }

  lemma Append(a: string, b: string, c: string)
    ensures a + b + c == a + (b + c)
  {
  }

  lemma MessageParsed(refs: References, v: Violation)
    requires ValidName(v.policy) && ValidNames(v.groups)
    ensures ParseLines(refs, Split(Header(v) + " " + v.message, '\n')) == ParseLines(After(refs, v), Split(v.message, '\n')[1..])
  {
    var pieces := Split(v.message, '\n');
    FirstLine(v);
    HeaderParsed(refs, v, " " + pieces[0]);
    ParseCons(refs, Header(v) + (" " + pieces[0]), pieces[1..]);
  }

  lemma ParseCons(refs: References, line: string, rest: seq<string>)
    ensures ParseLines(refs, [line] + rest) == ParseLines(ParseLine(refs, line), rest)
  {
    assert ([line] + rest)[1..] == rest;
  }

  lemma DescriptionParsed(refs: References, d: string)
    ensures ParseLines(refs, Split(DESCRIPTION_PREFIX + d, '\n')) == ParseLines(refs, Split(d, '\n')[1..])
  {
    var pieces := Split(d, '\n');
    SplitPrefix(DESCRIPTION_PREFIX, d, '\n');
    DescriptionIgnored(pieces[0]);
    ParseCons(refs, DESCRIPTION_PREFIX + pieces[0], pieces[1..]);
  }

  /** The lines of a printed violation that its own text supplies in full. */
  function FurtherLines(v: Violation): seq<string> {
    Split(v.message, '\n')[1..] + (if v.description == "" then [] else Split(v.description, '\n')[1..])
  }

  /** A printed violation reads as its header and then its further lines. */
  lemma FormatParsed(refs: References, v: Violation)
    requires ValidName(v.policy) && ValidNames(v.groups)
    ensures ParseLines(refs, Split(Format(v), '\n')) == ParseLines(After(refs, v), FurtherLines(v))
  {
    var first, more := Header(v) + " " + v.message, Split(v.message, '\n')[1..];
    MessageParsed(refs, v);
    if v.description == "" {
      assert Format(v) == first && FurtherLines(v) == more;
    } else {
      var second := DESCRIPTION_PREFIX + v.description;
      assert Format(v) == first + ['\n'] + second;
      SplitAt(first, '\n', second);
      ParseLinesAppend(refs, Split(first, '\n'), Split(second, '\n'));
      DescriptionParsed(ParseLines(After(refs, v), more), v.description);
      ParseLinesAppend(After(refs, v), more, Split(v.description, '\n')[1..]);
    }
  }

  ghost predicate Grows(a: References, b: References) {
    a.policies <= b.policies && a.groups <= b.groups
  }

  lemma {:induction false} AddAllGrows(values: seq<string>, more: seq<string>)
    ensures values <= AddAll(values, more)
    decreases |more|
  {
    if more != [] { AddAllGrows(Add(values, more[0]), more[1..]); }
  }

  lemma HeaderGrows(refs: References, inner: string)
    ensures Grows(refs, ParseHeader(refs, inner))
  {
    var cut := IndexOfText(inner, VIA);
    if cut >= 0 { AddAllGrows(refs.groups, Split(inner[cut + |VIA|..], ',')); }
  }

  lemma LineGrows(refs: References, raw: string)
    ensures Grows(refs, ParseLine(refs, raw))
  {
    if HeaderLike(raw) { HeaderGrows(refs, Bracketed(raw)); }
  }

  lemma {:induction false} LinesGrow(refs: References, lines: seq<string>)
    ensures Grows(refs, ParseLines(refs, lines))
    decreases |lines|
  {
    if lines != [] {
      LineGrows(refs, lines[0]);
      LinesGrow(ParseLine(refs, lines[0]), lines[1..]);
    }
  }

  /** Lines add nothing together exactly when none of them adds anything. */
  lemma {:induction false} QuietLines(refs: References, lines: seq<string>)
    ensures ParseLines(refs, lines) == refs <==> forall i :: 0 <= i < |lines| ==> ParseLine(refs, lines[i]) == refs
    decreases |lines|
  {
    if lines != [] {
      var next := ParseLine(refs, lines[0]);
      LineGrows(refs, lines[0]);
      LinesGrow(next, lines[1..]);
      if next == refs {
        QuietLines(refs, lines[1..]);
        assert forall i :: 0 <= i < |lines| - 1 ==> lines[1..][i] == lines[i + 1];
        assert forall i :: 1 <= i < |lines| ==> lines[i] == lines[1..][i - 1];
      }
    }
  }

  /** The text between the brackets of a header line. */
  function Bracketed(raw: string): string
    requires HeaderLike(raw)
  {
    TrimSpace(raw)[1..IndexOf(TrimSpace(raw), ']')]
  }

  function NamedPolicy(inner: string): string {
    var cut := IndexOfText(inner, VIA);
    if cut < 0 then inner else inner[..cut]
  }

  function NamedGroups(inner: string): seq<string> {
    var cut := IndexOfText(inner, VIA);
    if cut < 0 then [] else Split(inner[cut + |VIA|..], ',')
  }

  predicate BlankOrIn(values: seq<string>, value: string) {
    TrimSpace(value) == "" || TrimSpace(value) in values
  }

  /** The line is no header, or names only what is listed. */
  predicate NamesNothingNew(policies: seq<string>, groups: seq<string>, raw: string) {
    HeaderLike(raw) ==>
      && BlankOrIn(policies, NamedPolicy(Bracketed(raw)))
      && forall i :: 0 <= i < |NamedGroups(Bracketed(raw))| ==> BlankOrIn(groups, NamedGroups(Bracketed(raw))[i])
  }

  lemma {:induction false} AddsNothing(values: seq<string>, more: seq<string>)
    ensures AddAll(values, more) == values <==> forall i :: 0 <= i < |more| ==> BlankOrIn(values, more[i])
    decreases |more|
  {
    if more != [] {
      AddAllGrows(Add(values, more[0]), more[1..]);
      if BlankOrIn(values, more[0]) {
        AddsNothing(values, more[1..]);
        assert forall i :: 1 <= i < |more| ==> more[i] == more[1..][i - 1];
        assert forall i :: 0 <= i < |more| - 1 ==> more[1..][i] == more[i + 1];
      } else {
        assert |Add(values, more[0])| == |values| + 1;
      }
    }
  }

  lemma LineAddsNothing(refs: References, raw: string)
    ensures ParseLine(refs, raw) == refs <==> NamesNothingNew(refs.policies, refs.groups, raw)
  {
    if HeaderLike(raw) {
      var inner := Bracketed(raw);
      AddsNothing(refs.groups, NamedGroups(inner));
      assert ParseLine(refs, raw) == ParseHeader(refs, inner);
      assert ParseHeader(refs, inner) == References(Add(refs.policies, NamedPolicy(inner)), AddAll(refs.groups, NamedGroups(inner)));
    }
  }

  /** A printed violation reads back as itself exactly when every further line of its message and
      description is no header, or names only the violation's policy and groups or ones read before. */
  lemma ReadBackExactly(refs: References, v: Violation)
    requires ValidName(v.policy) && ValidNames(v.groups)
    ensures
      Parse(refs, [Format(v)]) == After(refs, v) <==>
      forall i :: 0 <= i < |FurtherLines(v)| ==>
        NamesNothingNew(refs.policies + [v.policy], refs.groups + v.groups, FurtherLines(v)[i])
  {
    FormatParsed(refs, v);
    var after, lines := After(refs, v), FurtherLines(v);
    QuietLines(after, lines);
    assert [Format(v)][1..] == [];
    forall i | 0 <= i < |lines|
      ensures ParseLine(after, lines[i]) == after <==> NamesNothingNew(refs.policies + [v.policy], refs.groups + v.groups, lines[i])
    {
      LineAddsNothing(after, lines[i]);
      SameListed(refs, v, lines[i]);
    }
  }

  /** What has been read after a violation is what had been read before, and its own names. */
  lemma SameListed(refs: References, v: Violation, raw: string)
    ensures NamesNothingNew(After(refs, v).policies, After(refs, v).groups, raw) <==>
            NamesNothingNew(refs.policies + [v.policy], refs.groups + v.groups, raw)
  {
    forall x ensures x in After(refs, v).policies <==> x in refs.policies + [v.policy] {
      FirstsHolds(refs.policies, [v.policy], x);
    }
    forall x ensures x in After(refs, v).groups <==> x in refs.groups + v.groups {
      FirstsHolds(refs.groups, v.groups, x);
    }
  }

  lemma ReadableParsed(refs: References, v: Violation)
    requires Readable(v)
    ensures ParseLines(refs, Split(Format(v), '\n')) == After(refs, v)
  {
    FormatParsed(refs, v);
    var a, b := Split(v.message, '\n')[1..], Split(v.description, '\n')[1..];
    assert forall i :: 0 <= i < |a| ==> a[i] == Split(v.message, '\n')[i + 1];
    assert forall i :: 0 <= i < |b| ==> b[i] == Split(v.description, '\n')[i + 1];
    NoHeaders(After(refs, v), FurtherLines(v));
  }

  /** The parser undoes the printer: exactly the policies and groups, in first-occurrence order. */
  lemma {:induction false} RoundTrip(refs: References, vs: seq<Violation>)
    requires forall i :: 0 <= i < |vs| ==> Readable(vs[i])
    ensures Parse(refs, Texts(vs)) == Expected(refs, vs)
    decreases |vs|
  {
    if vs != [] {
      ReadableParsed(refs, vs[0]);
      assert Texts(vs)[1..] == Texts(vs[1..]);
      RoundTrip(After(refs, vs[0]), vs[1..]);
    }
  }

  lemma BlankIgnored(refs: References)
    ensures ParseLines(refs, [""]) == refs
  {
    assert TrimSpace("") == "";
  }

  /** The denial joins the violations with blank lines; it reads the same as the list, for any texts. */
  lemma {:induction false} DenyForm(refs: References, texts: seq<string>)
    ensures Parse(refs, [Join(texts, "\n\n")]) == Parse(refs, texts)
    decreases |texts|
  {
    var joined := Join(texts, "\n\n");
    assert [joined][1..] == [];
    assert Parse(refs, [joined]) == ParseLines(refs, Split(joined, '\n'));
    if texts == [] {
      BlankIgnored(refs);
    } else if |texts| == 1 {
      assert texts == [joined];
    } else {
      var rest := Join(texts[1..], "\n\n");
      var after := ParseLines(refs, Split(texts[0], '\n'));
      JoinedLines(texts[0], rest);
      ParseLinesAppend(refs, Split(texts[0], '\n'), [""] + Split(rest, '\n'));
      ParseLinesAppend(after, [""], Split(rest, '\n'));
      BlankIgnored(after);
      DenyForm(after, texts[1..]);
      assert [rest][1..] == [];
    }
  }

  lemma JoinedLines(a: string, b: string)
    ensures Split(a + "\n\n" + b, '\n') == Split(a, '\n') + ([""] + Split(b, '\n'))
  {
    assert a + "\n\n" + b == a + ['\n'] + (['\n'] + b);
    SplitAt(a, '\n', ['\n'] + b);
    assert ['\n'] + b == [] + ['\n'] + b;
    SplitAt([], '\n', b);
  }

  /** A message that continues with a line in brackets is read as a second violation. */
  lemma BracketedLineIsRead(refs: References, v: Violation, other: Violation, rest: string)
    requires ValidName(v.policy) && ValidNames(v.groups) && '\n' !in v.message && v.description == ""
    requires ValidName(other.policy) && ValidNames(other.groups) && '\n' !in rest
    ensures
      var message := v.message + "\n" + Header(other) + rest;
      Parse(refs, [Format(v.(message := message))]) == After(After(refs, v), other)
  {
    var second := Header(other) + rest;
    var long := v.(message := v.message + "\n" + Header(other) + rest);
    assert long.message == v.message + ['\n'] + second;
    HeaderShape(other);
    SplitAt(v.message, '\n', second);
    SplitWhole(v.message, '\n');
    SplitWhole(second, '\n');
    assert FurtherLines(long) == [second];
    FormatParsed(refs, long);
    HeaderParsed(After(refs, v), other, rest);
    assert [Format(long)][1..] == [] && [second][1..] == [];
  }

  /** First occurrences keep every name ... */
  lemma {:induction false} FirstsHolds(values: seq<string>, more: seq<string>, x: string)
    ensures x in Firsts(values, more) <==> x in values || x in more
    decreases |more|
  {
    if more != [] {
      assert more == [more[0]] + more[1..];
      FirstsHolds(if more[0] in values then values else values + [more[0]], more[1..], x);
    }
  }

  /** ... and keep it once. */
  lemma {:induction false} FirstsOnce(values: seq<string>, more: seq<string>, x: string)
    requires multiset(values)[x] <= 1
    ensures multiset(Firsts(values, more))[x] <= 1
    decreases |more|
  {
    if more != [] { FirstsOnce(if more[0] in values then values else values + [more[0]], more[1..], x); }
  }

  // ---- the parser's loops ----

  /** The closure `add`: `seen` mirrors the list. */
  method AddValue(values: seq<string>, seen: set<string>, raw: string) returns (values': seq<string>, seen': set<string>)
    requires forall x :: x in seen <==> x in values
    ensures values' == Add(values, raw)
    ensures forall x :: x in seen' <==> x in values'
  {
    var value := TrimSpace(raw);
    if value == "" || value in seen { return values, seen; }
    return values + [value], seen + {value};
  }

  /** `AdmissionEventReferences`. */
  method AdmissionEventReferences(violations: seq<string>) returns (policies: seq<string>, groups: seq<string>)
    ensures References(policies, groups) == Parse(NOTHING, violations)
  {
    policies, groups := [], [];
    var seenPolicies, seenGroups := {}, {};
    for i := 0 to |violations|
      invariant forall x :: x in seenPolicies <==> x in policies
      invariant forall x :: x in seenGroups <==> x in groups
      invariant Parse(References(policies, groups), violations[i..]) == Parse(NOTHING, violations)
    {
      assert violations[i..][0] == violations[i] && violations[i..][1..] == violations[i + 1..];
      policies, seenPolicies, groups, seenGroups :=
        ReadLines(Split(violations[i], '\n'), policies, seenPolicies, groups, seenGroups);
    }
    assert violations[|violations|..] == [];
  }

  method ReadLines(lines: seq<string>, policies0: seq<string>, seenPolicies0: set<string>, groups0: seq<string>, seenGroups0: set<string>)
    returns (policies: seq<string>, seenPolicies: set<string>, groups: seq<string>, seenGroups: set<string>)
    requires forall x :: x in seenPolicies0 <==> x in policies0
    requires forall x :: x in seenGroups0 <==> x in groups0
    ensures forall x :: x in seenPolicies <==> x in policies
    ensures forall x :: x in seenGroups <==> x in groups
    ensures References(policies, groups) == ParseLines(References(policies0, groups0), lines)
  {
    policies, seenPolicies, groups, seenGroups := policies0, seenPolicies0, groups0, seenGroups0;
    for i := 0 to |lines|
      invariant forall x :: x in seenPolicies <==> x in policies
      invariant forall x :: x in seenGroups <==> x in groups
      invariant ParseLines(References(policies, groups), lines[i..]) == ParseLines(References(policies0, groups0), lines)
    {
      assert lines[i..][0] == lines[i] && lines[i..][1..] == lines[i + 1..];
      var line := TrimSpace(lines[i]);
      if line == "" || line[0] != '[' { continue; }
      var end := IndexOf(line, ']');
      if end <= 1 { continue; }
      var inner := line[1..end];
      var cut := IndexOfText(inner, VIA);
      policies, seenPolicies := AddValue(policies, seenPolicies, if cut < 0 then inner else inner[..cut]);
      if cut < 0 { continue; }
      groups, seenGroups := AddGroups(Split(inner[cut + |VIA|..], ','), groups, seenGroups);
    }
    assert lines[|lines|..] == [];
  }

  method AddGroups(raw: seq<string>, groups0: seq<string>, seen0: set<string>) returns (groups: seq<string>, seen: set<string>)
    requires forall x :: x in seen0 <==> x in groups0
    ensures forall x :: x in seen <==> x in groups
    ensures groups == AddAll(groups0, raw)
  {
    groups, seen := groups0, seen0;
    for i := 0 to |raw|
      invariant forall x :: x in seen <==> x in groups
      invariant AddAll(groups, raw[i..]) == AddAll(groups0, raw)
    {
      assert raw[i..][0] == raw[i] && raw[i..][1..] == raw[i + 1..];
      groups, seen := AddValue(groups, seen, raw[i]);
    }
    assert raw[|raw|..] == [];
  }
}
