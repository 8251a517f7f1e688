/** Settling PolicyVersion numbers across crashes and concurrent spec edits.
    One reconcile is a job of small steps; between any two of them the process may
    crash, the spec may be edited, and a prune may give up. One policy's reconciles
    do not overlap. */
module PolicyVersions {
  import opened Names

  const MAX_RETRIES := 8

  /** The fields a version captures; match is its two lists. A description is not among them, but
      editing it makes a new generation all the same. */
  datatype Content = Content(rego: string, operations: string, resources: string, mode: string)
  datatype Spec = Spec(content: Content, rollbackTo: Option<int>, description: string)
  datatype Phase = Unset | Ready | Invalid
  datatype Status = Status(phase: Phase, currentVersion: int, observedGeneration: int)

  datatype Job =
    | Idle
    | Creating(content: Content, generation: int, next: int, attempt: nat)
    | Pruning(content: Content, generation: int, next: int, todo: seq<int>)
    | Writing(desired: Status)
    | Patching(base: Content, target: Content)

  /** `ever` remembers each version number that was created, and for what. */
  datatype State = State(
    spec: Spec, generation: int, status: Status, versions: map<int, Content>, ever: map<int, Content>, job: Job)

  predicate UpToDate(s: State) {
    s.status.phase == Ready && s.status.observedGeneration == s.generation
  }

  // ---- ascending listings of version numbers ----

  predicate Ascending(xs: seq<int>) {
    forall i, j :: 0 <= i < j < |xs| ==> xs[i] < xs[j]
  }

  function InsertInt(x: int, xs: seq<int>): (r: seq<int>)
    requires Ascending(xs) && x !in xs
    ensures Ascending(r) && |r| == |xs| + 1
    ensures forall y :: y in r <==> y == x || y in xs
  {
    if xs == [] then [x]
    else if x < xs[0] then [x] + xs
    else
      assert xs == [xs[0]] + xs[1..];
      var rest := InsertInt(x, xs[1..]);
      assert forall i :: 0 <= i < |rest| ==> rest[i] in rest;
      [xs[0]] + rest
  }

  /** The version numbers in order, each once. */
  ghost function SortedVersions(keys: set<int>): (r: seq<int>)
    ensures Ascending(r) && |r| == |keys| && forall x :: x in r <==> x in keys
  {
    if keys == {} then []
    else
      var x := AnyOf(keys);
      InsertInt(x, SortedVersions(keys - {x}))
  }

  /** What `pruneVersions` sets out to delete: all but the `limit` highest numbers. */
  ghost function Doomed(keys: set<int>, limit: nat): seq<int> {
    var sorted := SortedVersions(keys);
    if |sorted| <= limit then [] else sorted[..|sorted| - limit]
  }

  // ---- steps ----

  /** A JSON merge patch of what changed between `base` and `target`, applied to `live`. */
  function MergePatch(base: Content, target: Content, live: Content): Content {
    Content(
      if base.rego == target.rego then live.rego else target.rego,
      if base.operations == target.operations then live.operations else target.operations,
      if base.resources == target.resources then live.resources else target.resources,
      if base.mode == target.mode then live.mode else target.mode)
  }

  function WithSpec(s: State, spec: Spec): State {
    if spec == s.spec then s else s.(spec := spec, generation := s.generation + 1)
  }

  /** A reconcile reads the policy and picks its path. */
  function Begin(valid: string -> bool, s: State): State
    requires s.job == Idle
  {
    if s.spec.rollbackTo.Some? then
      var v := s.spec.rollbackTo.value;
      if v in s.versions then s.(job := Patching(s.spec.content, s.versions[v]))
      else s.(job := Writing(s.status.(phase := Invalid)))
    else if UpToDate(s) then s
    else if !valid(s.spec.content.rego) then s.(job := Writing(s.status.(phase := Invalid)))
    else s.(job := Creating(s.spec.content, s.generation, s.status.currentVersion + 1, 0))
  }

  /** The next step of a job that is not disturbed. */
  ghost function Step(limit: nat, s: State): State
    requires s.job != Idle
  {
    match s.job
    case Creating(content, generation, next, attempt) =>
      if next !in s.versions then
        var versions := s.versions[next := content];
        s.(versions := versions, ever := s.ever[next := content],
           job := Pruning(content, generation, next, Doomed(versions.Keys, limit)))
      else if s.versions[next] == content then
        s.(job := Pruning(content, generation, next, Doomed(s.versions.Keys, limit)))
      else if attempt + 1 < MAX_RETRIES then
        s.(job := Creating(content, generation, next + 1, attempt + 1))
      else s.(job := Idle)
    case Pruning(content, generation, next, todo) =>
      if todo != [] then s.(versions := s.versions - {todo[0]}, job := Pruning(content, generation, next, todo[1..]))
      else s.(job := Writing(Status(Ready, next, generation)))
    case Writing(desired) => s.(status := desired, job := Idle)
    case Patching(base, target) =>
      WithSpec(s, s.spec.(content := MergePatch(base, target, s.spec.content), rollbackTo := None)).(job := Idle)
  }

  ghost predicate Next(limit: nat, valid: string -> bool, s: State, s': State) {
    || (s.job == Idle && s' == Begin(valid, s))
    || (s.job != Idle && s' == Step(limit, s))
    || s' == s.(job := Idle)                                                           // crash, or an API error
    || (s.job.Pruning? && s' == s.(job := Writing(Status(Ready, s.job.next, s.job.generation)))) // prune failed, logged
    || s' == WithSpec(s, s'.spec)                                                      // the user edits the spec
  }

  predicate Initial(s: State) {
    s.status == Status(Unset, 0, 0) && s.generation == 1 && s.versions == map[] && s.ever == map[] && s.job == Idle
  }

  ghost predicate Trace(limit: nat, valid: string -> bool, trace: seq<State>) {
    && trace != [] && Initial(trace[0])
    && forall i :: 0 <= i < |trace| - 1 ==> StepAt(limit, valid, trace, i)
  }

  ghost predicate StepAt(limit: nat, valid: string -> bool, trace: seq<State>, i: nat)
    requires i < |trace| - 1
  {
    Next(limit, valid, trace[i], trace[i + 1])
  }

  ghost predicate Reachable(limit: nat, valid: string -> bool, s: State) {
    exists trace :: Trace(limit, valid, trace) && trace[|trace| - 1] == s
  }

  /** What Ready at the current generation promises. */
  predicate Settled(s: State) {
    UpToDate(s) ==>
      && s.spec.rollbackTo == None
      && s.status.currentVersion in s.versions
      && s.versions[s.status.currentVersion] == s.spec.content
  }

  // ---- the invariant ----

  ghost predicate Numbered(s: State) {
    && s.status.currentVersion >= 0
    && s.status.observedGeneration <= s.generation
    && (forall v :: v in s.ever ==> 0 < v <= s.status.currentVersion + MAX_RETRIES)
    && (forall v :: v in s.versions ==> v in s.ever && s.ever[v] == s.versions[v])
    && (forall v :: v in s.ever && v > s.status.currentVersion ==> v in s.versions)
  }

  /** A job that read generation `g` with content `content` when the status was not yet up to date. */
  predicate Working(s: State, content: Content, g: int) {
    && s.status.observedGeneration <= g <= s.generation
    && !(s.status.phase == Ready && s.status.observedGeneration == g)
    && (g == s.generation ==> s.spec.content == content && s.spec.rollbackTo == None)
  }

  predicate Chosen(s: State, content: Content, next: int) {
    && s.status.currentVersion < next <= s.status.currentVersion + MAX_RETRIES
    && next in s.versions && s.versions[next] == content
  }

  predicate JobOk(s: State) {
    match s.job
    case Idle => true
    case Creating(content, g, next, attempt) =>
      Working(s, content, g) && attempt < MAX_RETRIES && next == s.status.currentVersion + 1 + attempt
    case Pruning(content, g, next, todo) =>
      && Working(s, content, g) && Chosen(s, content, next)
      && (forall v :: v in todo ==> v <= s.status.currentVersion)
    case Writing(desired) =>
      || desired == s.status.(phase := Invalid)
      || (&& desired.phase == Ready && desired.currentVersion in s.versions
          && Working(s, s.versions[desired.currentVersion], desired.observedGeneration)
          && Chosen(s, s.versions[desired.currentVersion], desired.currentVersion))
    case Patching(_, _) => true
  }

  ghost predicate Inv(s: State) {
    Numbered(s) && Settled(s) && JobOk(s)
  }

  lemma AscendingGap(xs: seq<int>, i: nat, k: nat)
    requires Ascending(xs) && i + k < |xs|
    ensures xs[i + k] >= xs[i] + k
  {
    if k > 0 { AscendingGap(xs, i, k - 1); }
  }

  /** With eight or more versions kept, pruning stays at or below the recorded version. */
  lemma DoomedAreOld(keys: set<int>, limit: nat, current: int, v: int)
    requires limit >= MAX_RETRIES
    requires forall k :: k in keys ==> k <= current + MAX_RETRIES
    requires v in Doomed(keys, limit)
    ensures v in keys && v <= current
  {
    var sorted := SortedVersions(keys);
    var i :| 0 <= i < |sorted| - limit && sorted[i] == v;
    AscendingGap(sorted, i, MAX_RETRIES);
    assert sorted[i] in sorted && sorted[i + MAX_RETRIES] in sorted;
  }

  lemma InvEdit(s: State, spec: Spec)
    requires Inv(s)
    ensures Inv(WithSpec(s, spec))
  {
  }

  lemma InvChosen(limit: nat, s: State, s': State)
    requires limit >= MAX_RETRIES && s.job.Creating? && JobOk(s)
    requires s' == s.(versions := s'.versions, ever := s'.ever) && Numbered(s') && Settled(s')
    requires s.job.next in s'.versions && s'.versions[s.job.next] == s.job.content
    ensures Inv(s'.(job := Pruning(s.job.content, s.job.generation, s.job.next, Doomed(s'.versions.Keys, limit))))
  {
    forall v | v in Doomed(s'.versions.Keys, limit) ensures v <= s.status.currentVersion {
      DoomedAreOld(s'.versions.Keys, limit, s.status.currentVersion, v);
    }
  }

  lemma InvSettle(limit: nat, s: State)
    requires limit >= MAX_RETRIES && Inv(s) && s.job.Creating?
    ensures Inv(Step(limit, s))
  {
    var next, content := s.job.next, s.job.content;
    if next !in s.versions {
      InvChosen(limit, s, s.(versions := s.versions[next := content], ever := s.ever[next := content]));
    } else if s.versions[next] == content {
      InvChosen(limit, s, s);
    }
  }

  lemma InvPrune(limit: nat, s: State)
    requires Inv(s) && s.job.Pruning?
    ensures Inv(Step(limit, s)) && Inv(s.(job := Writing(Status(Ready, s.job.next, s.job.generation))))
  {
    if s.job.todo != [] {
      var rest := s.job.todo[1..];
      assert s.job.todo[0] in s.job.todo;
      assert forall v :: v in rest ==> v in s.job.todo;
    }
  }

  lemma InvBegin(valid: string -> bool, s: State)
    requires Inv(s) && s.job == Idle
    ensures Inv(Begin(valid, s))
  {
  }

  lemma InvWrite(limit: nat, s: State)
    requires Inv(s) && s.job.Writing?
    ensures Inv(Step(limit, s))
  {
  }

  lemma InvNext(limit: nat, valid: string -> bool, s: State, s': State)
    requires limit >= MAX_RETRIES && Inv(s) && Next(limit, valid, s, s')
    ensures Inv(s')
  {
    if s' == WithSpec(s, s'.spec) {
      InvEdit(s, s'.spec);
    } else if s' == s.(job := Idle) {
    } else {
      match s.job {
        case Idle => InvBegin(valid, s);
        case Creating(_, _, _, _) => InvSettle(limit, s);
        case Pruning(_, _, _, _) => InvPrune(limit, s);
        case Writing(_) => InvWrite(limit, s);
        case Patching(base, target) =>
          InvEdit(s.(job := Idle), s.spec.(content := MergePatch(base, target, s.spec.content), rollbackTo := None));
      }
    }
  }

  lemma {:induction false} InvTrace(limit: nat, valid: string -> bool, trace: seq<State>, i: nat)
    requires limit >= MAX_RETRIES && Trace(limit, valid, trace) && i < |trace|
    ensures Inv(trace[i])
  {
    if i > 0 {
      InvTrace(limit, valid, trace, i - 1);
      assert StepAt(limit, valid, trace, i - 1);
      InvNext(limit, valid, trace[i - 1], trace[i]);
    }
  }

  lemma EverStep(limit: nat, s: State, v: int)
    requires Numbered(s) && JobOk(s) && s.job != Idle && v in s.ever
    ensures v in Step(limit, s).ever && Step(limit, s).ever[v] == s.ever[v]
  {
    match s.job {
      case Creating(_, _, next, _) => if next !in s.versions { assert next !in s.ever; }
      case _ =>
    }
  }

  lemma EverGrows(limit: nat, valid: string -> bool, s: State, s': State, v: int)
    requires Numbered(s) && JobOk(s) && Next(limit, valid, s, s') && v in s.ever
    ensures v in s'.ever && s'.ever[v] == s.ever[v]
  {
    assert WithSpec(s, s'.spec).ever == s.ever;
    if s.job == Idle { BeginEver(valid, s); } else { EverStep(limit, s, v); }
  }

  lemma BeginEver(valid: string -> bool, s: State)
    requires s.job == Idle
    ensures Begin(valid, s).ever == s.ever
  {
  }

  lemma {:induction false} EverTrace(limit: nat, valid: string -> bool, trace: seq<State>, i: nat, j: nat, v: int)
    requires limit >= MAX_RETRIES && Trace(limit, valid, trace) && i <= j < |trace|
    requires v in trace[i].ever
    ensures v in trace[j].ever && trace[j].ever[v] == trace[i].ever[v]
  {
    if i < j {
      EverTrace(limit, valid, trace, i, j - 1, v);
      InvTrace(limit, valid, trace, j - 1);
      assert StepAt(limit, valid, trace, j - 1);
      EverGrows(limit, valid, trace[j - 1], trace[j], v);
    }
  }

  /** A version number names one content for the whole of a run, even once its version is pruned. */
  lemma NumbersNeverReused(limit: nat, valid: string -> bool, trace: seq<State>, i: nat, j: nat, v: int)
    requires limit >= MAX_RETRIES && Trace(limit, valid, trace) && i <= j < |trace|
    requires v in trace[i].versions && v in trace[j].versions
    ensures trace[j].versions[v] == trace[i].versions[v]
  {
    InvTrace(limit, valid, trace, i);
    InvTrace(limit, valid, trace, j);
    EverTrace(limit, valid, trace, i, j, v);
  }

  // ---- fewer than eight versions kept: the promise fails ----

  function Tagged(rego: string, k: nat): Content {
    Content(rego, "", seq(k, _ => 'x'), "")
  }

  lemma TaggedDistinct(rego: string, j: nat, k: nat)
    requires j != k
    ensures Tagged(rego, j) != Tagged(rego, k)
  {
    assert |Tagged(rego, j).resources| != |Tagged(rego, k).resources|;
  }

  function Crashed(rego: string, k: nat): map<int, Content> {
    if k == 0 then map[] else Crashed(rego, k - 1)[k := Tagged(rego, k - 1)]
  }

  function UpTo(k: nat): set<int> {
    if k == 0 then {} else UpTo(k - 1) + {k}
  }

  lemma {:induction false} UpToContents(k: nat)
    ensures |UpTo(k)| == k && forall v :: v in UpTo(k) <==> 1 <= v <= k
  {
    if k > 0 { UpToContents(k - 1); }
  }

  lemma {:induction false} CrashedAt(rego: string, k: nat, v: int)
    ensures v in Crashed(rego, k) <==> 1 <= v <= k
    ensures 1 <= v <= k ==> Crashed(rego, k)[v] == Tagged(rego, v - 1)
  {
    if k > 0 { CrashedAt(rego, k - 1, v); }
  }

  lemma {:induction false} CrashedKeys(rego: string, k: nat)
    ensures Crashed(rego, k).Keys == UpTo(k)
  {
    if k > 0 { CrashedKeys(rego, k - 1); }
  }

  /** `k` versions were created by reconciles that crashed before recording them, each for another spec. */
  function Filled(rego: string, k: nat, content: Content, g: int, job: Job): State {
    State(Spec(content, None, ""), g, Status(Unset, 0, 0), Crashed(rego, k), Crashed(rego, k), job)
  }

  lemma LongerStep(limit: nat, valid: string -> bool, trace: seq<State>, s': State, i: nat)
    requires Trace(limit, valid, trace) && Next(limit, valid, trace[|trace| - 1], s') && i < |trace|
    ensures StepAt(limit, valid, trace + [s'], i)
  {
    var longer := trace + [s'];
    assert longer[i] == trace[i];
    if i < |trace| - 1 {
      assert StepAt(limit, valid, trace, i);
      assert longer[i + 1] == trace[i + 1];
    } else {
      assert longer[i + 1] == s';
    }
  }

  lemma ReachNext(limit: nat, valid: string -> bool, s: State, s': State)
    requires Reachable(limit, valid, s) && Next(limit, valid, s, s')
    ensures Reachable(limit, valid, s')
  {
    var trace :| Trace(limit, valid, trace) && trace[|trace| - 1] == s;
    var longer := trace + [s'];
    forall i | 0 <= i < |longer| - 1 ensures StepAt(limit, valid, longer, i) {
      LongerStep(limit, valid, trace, s', i);
    }
    assert longer[0] == trace[0];
    assert Trace(limit, valid, longer) && longer[|longer| - 1] == s';
  }

  lemma ReachBegin(limit: nat, valid: string -> bool, s: State)
    requires Reachable(limit, valid, s) && s.job == Idle
    ensures Reachable(limit, valid, Begin(valid, s))
  {
    ReachNext(limit, valid, s, Begin(valid, s));
  }

  lemma ReachStep(limit: nat, valid: string -> bool, s: State)
    requires Reachable(limit, valid, s) && s.job != Idle
    ensures Reachable(limit, valid, Step(limit, s))
  {
    ReachNext(limit, valid, s, Step(limit, s));
  }

  lemma ReachIdle(limit: nat, valid: string -> bool, s: State)
    requires Reachable(limit, valid, s)
    ensures Reachable(limit, valid, s.(job := Idle))
  {
    ReachNext(limit, valid, s, s.(job := Idle));
  }

  lemma ReachEdit(limit: nat, valid: string -> bool, s: State, spec: Spec)
    requires Reachable(limit, valid, s)
    ensures Reachable(limit, valid, WithSpec(s, spec))
  {
    ReachNext(limit, valid, s, WithSpec(s, spec));
  }

  /** The probe for a free number walks past the `j` versions of other specs. */
  lemma {:induction false} ReachCollisions(limit: nat, valid: string -> bool, rego: string, k: nat, g: int, j: nat)
    requires j <= k < MAX_RETRIES
    requires Reachable(limit, valid, Filled(rego, k, Tagged(rego, k), g, Creating(Tagged(rego, k), g, 1, 0)))
    ensures Reachable(limit, valid, Filled(rego, k, Tagged(rego, k), g, Creating(Tagged(rego, k), g, 1 + j, j)))
  {
    if j > 0 {
      ReachCollisions(limit, valid, rego, k, g, j - 1);
      TaggedDistinct(rego, j - 1, k);
      CrashedAt(rego, k, j);
      ReachStep(limit, valid, Filled(rego, k, Tagged(rego, k), g, Creating(Tagged(rego, k), g, j, j - 1)));
    }
  }

  lemma BeginFilled(valid: string -> bool, rego: string, k: nat, content: Content, g: int)
    requires valid(content.rego) && g > 0
    ensures Begin(valid, Filled(rego, k, content, g, Idle)) == Filled(rego, k, content, g, Creating(content, g, 1, 0))
  {
  }

  lemma CreateFilled(limit: nat, rego: string, k: nat, g: int)
    requires k < MAX_RETRIES
    ensures Step(limit, Filled(rego, k, Tagged(rego, k), g, Creating(Tagged(rego, k), g, 1 + k, k))).(job := Idle) ==
            Filled(rego, k + 1, Tagged(rego, k), g, Idle)
  {
    CrashedAt(rego, k, 1 + k);
  }

  /** One more reconcile that creates its version and crashes. */
  lemma ReachCrash(limit: nat, valid: string -> bool, rego: string, k: nat)
    requires valid(rego) && k < MAX_RETRIES
    requires Reachable(limit, valid, Filled(rego, k, Tagged(rego, k), 1 + k, Idle))
    ensures Reachable(limit, valid, Filled(rego, k + 1, Tagged(rego, k), 1 + k, Idle))
  {
    var content, g := Tagged(rego, k), 1 + k;
    ReachBegin(limit, valid, Filled(rego, k, content, g, Idle));
    BeginFilled(valid, rego, k, content, g);
    ReachCollisions(limit, valid, rego, k, g, k);
    var free := Filled(rego, k, content, g, Creating(content, g, 1 + k, k));
    ReachStep(limit, valid, free);
    ReachIdle(limit, valid, Step(limit, free));
    CreateFilled(limit, rego, k, g);
  }

  lemma {:induction false} ReachFilled(limit: nat, valid: string -> bool, rego: string, k: nat)
    requires valid(rego) && k <= MAX_RETRIES
    ensures Reachable(limit, valid, Filled(rego, k, Tagged(rego, k), 1 + k, Idle))
  {
    if k == 0 {
      var s := Filled(rego, 0, Tagged(rego, 0), 1, Idle);
      assert Trace(limit, valid, [s]) && [s][|[s]| - 1] == s;
    } else {
      ReachFilled(limit, valid, rego, k - 1);
      ReachCrash(limit, valid, rego, k - 1);
      TaggedDistinct(rego, k - 1, k);
      ReachEdit(limit, valid, Filled(rego, k, Tagged(rego, k - 1), k, Idle), Spec(Tagged(rego, k), None, ""));
    }
  }

  /** The oldest version holds the current spec: the probe settles on it and the prune takes it. */
  lemma ReachPruned(limit: nat, valid: string -> bool, rego: string, g: int)
    requires limit < MAX_RETRIES
    requires Reachable(limit, valid, Filled(rego, limit + 1, Tagged(rego, 0), g, Creating(Tagged(rego, 0), g, 1, 0)))
    ensures
      var s := Filled(rego, limit + 1, Tagged(rego, 0), g, Pruning(Tagged(rego, 0), g, 1, []));
      Reachable(limit, valid, s.(versions := s.versions - {1}))
  {
    var k, content := limit + 1, Tagged(rego, 0);
    CrashedAt(rego, k, 1);
    CrashedKeys(rego, k);
    OldestDoomed(limit);
    ReachStep(limit, valid, Filled(rego, k, content, g, Creating(content, g, 1, 0)));
    assert [1][1..] == [];
    ReachStep(limit, valid, Filled(rego, k, content, g, Pruning(content, g, 1, [1])));
  }

  /** With a smaller limit, an old snapshot of the same spec is settled on and pruned at once. */
  lemma SmallLimitLosesVersion(limit: nat, valid: string -> bool, rego: string) returns (s: State)
    requires valid(rego) && limit < MAX_RETRIES
    ensures Reachable(limit, valid, s) && UpToDate(s) && s.status.currentVersion !in s.versions
  {
    var k, content := limit + 1, Tagged(rego, 0);
    var g := 2 + k;
    ReachFilled(limit, valid, rego, k);
    TaggedDistinct(rego, 0, k);
    ReachEdit(limit, valid, Filled(rego, k, Tagged(rego, k), 1 + k, Idle), Spec(content, None, ""));
    ReachBegin(limit, valid, Filled(rego, k, content, g, Idle));
    BeginFilled(valid, rego, k, content, g);
    ReachPruned(limit, valid, rego, g);
    var filled := Filled(rego, k, content, g, Pruning(content, g, 1, []));
    var pruned := filled.(versions := filled.versions - {1});
    ReachStep(limit, valid, pruned);
    ReachStep(limit, valid, pruned.(job := Writing(Status(Ready, 1, g))));
    s := pruned.(status := Status(Ready, 1, g), job := Idle);
  }

  lemma OldestDoomed(limit: nat)
    ensures Doomed(UpTo(limit + 1), limit) == [1]
  {
    UpToContents(limit + 1);
    var sorted := SortedVersions(UpTo(limit + 1));
    assert 1 in sorted;
    var i :| 0 <= i < |sorted| && sorted[i] == 1;
    assert sorted[0] in sorted;
    assert sorted[..1] == [1];
  }

  /** Ready at the current generation means what it says in every reachable state,
      exactly when at least eight versions are kept. */
  lemma SettledIffLimit(limit: nat, valid: string -> bool, rego: string)
    requires valid(rego)
    ensures (forall s :: Reachable(limit, valid, s) ==> Settled(s)) <==> limit >= MAX_RETRIES
  {
    if limit >= MAX_RETRIES {
      forall s | Reachable(limit, valid, s) ensures Settled(s) {
        var trace :| Trace(limit, valid, trace) && trace[|trace| - 1] == s;
        InvTrace(limit, valid, trace, |trace| - 1);
      }
    } else {
      var s := SmallLimitLosesVersion(limit, valid, rego);
    }
  }

  // ---- one undisturbed reconcile ----

  /** The number the probe settles on: the first free one, or the first that already holds this content. */
  function Settle(versions: map<int, Content>, content: Content, next: int, attempt: nat): Option<int>
    requires attempt < MAX_RETRIES
    decreases MAX_RETRIES - attempt
  {
    if next !in versions || versions[next] == content then Some(next)
    else if attempt + 1 < MAX_RETRIES then Settle(versions, content, next + 1, attempt + 1)
    else None
  }

  lemma {:induction false} SettleExact(versions: map<int, Content>, content: Content, next: int, attempt: nat)
    requires attempt < MAX_RETRIES
    ensures
      var r := Settle(versions, content, next, attempt);
      && (r.Some? ==>
          && next <= r.value < next + MAX_RETRIES - attempt
          && (r.value !in versions || versions[r.value] == content)
          && forall n :: next <= n < r.value ==> n in versions && versions[n] != content)
      && (r.None? ==> forall n :: next <= n < next + MAX_RETRIES - attempt ==> n in versions && versions[n] != content)
    decreases MAX_RETRIES - attempt
  {
    if next in versions && versions[next] != content && attempt + 1 < MAX_RETRIES {
      SettleExact(versions, content, next + 1, attempt + 1);
    }
  }

  function Without(versions: map<int, Content>, todo: seq<int>): map<int, Content> {
    if todo == [] then versions else Without(versions - {todo[0]}, todo[1..])
  }

  lemma {:induction false} WithoutContents(versions: map<int, Content>, todo: seq<int>, v: int)
    ensures v in Without(versions, todo) <==> v in versions && v !in todo
    ensures v in Without(versions, todo) ==> Without(versions, todo)[v] == versions[v]
  {
    if todo != [] { WithoutContents(versions - {todo[0]}, todo[1..], v); }
  }

  /** Where a reconcile that settled on `n` ends. */
  ghost function Recorded(limit: nat, s: State, content: Content, g: int, n: int): State {
    var versions := s.versions[n := content];
    s.(versions := Without(versions, Doomed(versions.Keys, limit)),
       ever := if n in s.versions then s.ever else s.ever[n := content],
       status := Status(Ready, n, g),
       job := Idle)
  }

  /** Where the probe and all that follows it end. */
  ghost function Probed(limit: nat, s: State, content: Content, g: int, next: int, attempt: nat): State
    requires attempt < MAX_RETRIES
  {
    var n := Settle(s.versions, content, next, attempt);
    if n.None? then s.(job := Idle) else Recorded(limit, s, content, g, n.value)
  }

  ghost function Reconciled(limit: nat, valid: string -> bool, s: State): State
    requires s.job == Idle
  {
    var b := Begin(valid, s);
    if b.job == Idle then b
    else if b.job.Creating? then Probed(limit, s, b.job.content, b.job.generation, b.job.next, 0)
    else Step(limit, b)
  }

  lemma {:induction false} ReachWithout(limit: nat, valid: string -> bool, s: State)
    requires Reachable(limit, valid, s) && s.job.Pruning?
    ensures Reachable(limit, valid,
      s.(versions := Without(s.versions, s.job.todo), job := s.job.(todo := [])))
    decreases if s.job.Pruning? then |s.job.todo| else 0
  {
    if s.job.todo != [] {
      ReachStep(limit, valid, s);
      ReachWithout(limit, valid, s.(versions := s.versions - {s.job.todo[0]}, job := s.job.(todo := s.job.todo[1..])));
    }
  }

  lemma ReachRecorded(limit: nat, valid: string -> bool, s: State)
    requires Reachable(limit, valid, s) && s.job.Creating?
    requires s.job.next !in s.versions || s.versions[s.job.next] == s.job.content
    ensures Reachable(limit, valid, Recorded(limit, s, s.job.content, s.job.generation, s.job.next))
  {
    var versions := s.versions[s.job.next := s.job.content];
    ReachStep(limit, valid, s);
    var created := Step(limit, s);
    assert created.versions == versions && created.job.todo == Doomed(versions.Keys, limit);
    ReachWithout(limit, valid, created);
    ReachWritten(limit, valid, created.(versions := Without(versions, created.job.todo), job := created.job.(todo := [])));
  }

  lemma ReachWritten(limit: nat, valid: string -> bool, s: State)
    requires Reachable(limit, valid, s) && s.job.Pruning? && s.job.todo == []
    ensures Reachable(limit, valid, s.(status := Status(Ready, s.job.next, s.job.generation), job := Idle))
  {
    ReachStep(limit, valid, s);
    ReachStep(limit, valid, s.(job := Writing(Status(Ready, s.job.next, s.job.generation))));
  }

  lemma ReachCollision(limit: nat, valid: string -> bool, s: State, next: int, attempt: nat)
    requires Reachable(limit, valid, s) && s.job.Creating? && s.job.next == next && s.job.attempt == attempt
    requires next in s.versions && s.versions[next] != s.job.content && attempt + 1 < MAX_RETRIES
    ensures Reachable(limit, valid, s.(job := Creating(s.job.content, s.job.generation, next + 1, attempt + 1)))
  {
    ReachStep(limit, valid, s);
  }

  lemma ProbedStep(limit: nat, s: State, job: Job, content: Content, g: int, next: int, attempt: nat)
    requires attempt < MAX_RETRIES
    ensures
      if next !in s.versions || s.versions[next] == content then
        Probed(limit, s, content, g, next, attempt) == Recorded(limit, s, content, g, next)
      else if attempt + 1 < MAX_RETRIES then
        Probed(limit, s, content, g, next, attempt) == Probed(limit, s.(job := job), content, g, next + 1, attempt + 1)
      else Probed(limit, s, content, g, next, attempt) == s.(job := Idle)
  {
  }

  lemma {:induction false} ReachProbed(
    limit: nat, valid: string -> bool, s: State, content: Content, g: int, next: int, attempt: nat)
    requires attempt < MAX_RETRIES && Reachable(limit, valid, s) && s.job == Creating(content, g, next, attempt)
    ensures Reachable(limit, valid, Probed(limit, s, content, g, next, attempt))
    decreases MAX_RETRIES - attempt
  {
    var job := Creating(content, g, next + 1, attempt + 1);
    ProbedStep(limit, s, job, content, g, next, attempt);
    if next !in s.versions || s.versions[next] == content {
      ReachRecorded(limit, valid, s);
    } else if attempt + 1 < MAX_RETRIES {
      ReachCollision(limit, valid, s, next, attempt);
      ReachProbed(limit, valid, s.(job := job), content, g, next + 1, attempt + 1);
    } else {
      ReachIdle(limit, valid, s);
    }
  }

  /** An undisturbed reconcile is a run of the small steps. */
  lemma ReconciledReachable(limit: nat, valid: string -> bool, s: State)
    requires Reachable(limit, valid, s) && s.job == Idle
    ensures Reachable(limit, valid, Reconciled(limit, valid, s))
  {
    ReachBegin(limit, valid, s);
    var b := Begin(valid, s);
    if b.job.Creating? {
      ReachProbed(limit, valid, b, b.job.content, b.job.generation, b.job.next, 0);
    } else if b.job != Idle {
      ReachStep(limit, valid, b);
    }
  }

  /** One of the next eight numbers is free or already holds the content. */
  ghost predicate RoomFor(s: State, content: Content) {
    var current := s.status.currentVersion;
    exists n :: current < n <= current + MAX_RETRIES && (n !in s.versions || s.versions[n] == content)
  }

  lemma SettleIffRoom(s: State, content: Content)
    ensures
      var n := Settle(s.versions, content, s.status.currentVersion + 1, 0);
      && (n.Some? <==> RoomFor(s, content))
      && (n.Some? ==> s.status.currentVersion < n.value <= s.status.currentVersion + MAX_RETRIES)
  {
    SettleExact(s.versions, content, s.status.currentVersion + 1, 0);
  }

  lemma ReconciledIs(limit: nat, valid: string -> bool, s: State)
    requires s.job == Idle && s.spec.rollbackTo == None && !UpToDate(s)
    ensures Reconciled(limit, valid, s) ==
      if valid(s.spec.content.rego) then Probed(limit, s, s.spec.content, s.generation, s.status.currentVersion + 1, 0)
      else s.(status := s.status.(phase := Invalid))
  {
    if valid(s.spec.content.rego) {
      assert Begin(valid, s) == s.(job := Creating(s.spec.content, s.generation, s.status.currentVersion + 1, 0));
    } else {
      assert Begin(valid, s) == s.(job := Writing(s.status.(phase := Invalid)));
    }
  }

  /** A reconcile that has work to do records the spec under a higher number, exactly when the
      rego compiles and there is room. */
  lemma ReconcileRecords(limit: nat, valid: string -> bool, s: State)
    requires limit >= MAX_RETRIES && Inv(s) && s.job == Idle && s.spec.rollbackTo == None && !UpToDate(s)
    ensures
      var s' := Reconciled(limit, valid, s);
      && (UpToDate(s') <==> valid(s.spec.content.rego) && RoomFor(s, s.spec.content))
      && (UpToDate(s') ==>
          && s'.status.currentVersion > s.status.currentVersion
          && s'.status.currentVersion in s'.versions
          && s'.versions[s'.status.currentVersion] == s.spec.content)
  {
    var content := s.spec.content;
    ReconciledIs(limit, valid, s);
    SettleIffRoom(s, content);
    var n := Settle(s.versions, content, s.status.currentVersion + 1, 0);
    if n.Some? { RecordedKept(limit, s, content, s.generation, n.value); }
  }

  /** A rollback patches the spec; the reconcile after it records the target's content as a
      higher version, exactly when that content compiles and there is room. */
  lemma RollbackThenReconcile(limit: nat, valid: string -> bool, s: State, v: int)
    requires limit >= MAX_RETRIES && Inv(s) && s.job == Idle
    requires s.spec.rollbackTo == Some(v) && v in s.versions
    ensures
      var target := s.versions[v];
      var s1 := Reconciled(limit, valid, s);
      && s1 == s.(spec := s.spec.(content := target, rollbackTo := None), generation := s.generation + 1)
      && var s2 := Reconciled(limit, valid, s1);
         && (UpToDate(s2) <==> valid(target.rego) && RoomFor(s, target))
         && (UpToDate(s2) ==>
             && s2.status.currentVersion > s.status.currentVersion
             && s2.status.currentVersion in s2.versions
             && s2.versions[s2.status.currentVersion] == target)
  {
    var target := s.versions[v];
    RollbackPatches(limit, valid, s, v);
    var s1 := s.(spec := s.spec.(content := target, rollbackTo := None), generation := s.generation + 1);
    InvEdit(s, s1.spec);
    ReconcileRecords(limit, valid, s1);
    assert RoomFor(s1, target) == RoomFor(s, target);
  }

  lemma RollbackPatches(limit: nat, valid: string -> bool, s: State, v: int)
    requires s.job == Idle && s.spec.rollbackTo == Some(v) && v in s.versions
    ensures Reconciled(limit, valid, s) == s.(spec := s.spec.(content := s.versions[v], rollbackTo := None), generation := s.generation + 1)
  {
  }

  /** Pruning keeps the version just settled on. */
  lemma RecordedKept(limit: nat, s: State, content: Content, g: int, n: int)
    requires limit >= MAX_RETRIES && Numbered(s)
    requires s.status.currentVersion < n <= s.status.currentVersion + MAX_RETRIES
    ensures n in Recorded(limit, s, content, g, n).versions && Recorded(limit, s, content, g, n).versions[n] == content
  {
    var versions := s.versions[n := content];
    var todo := Doomed(versions.Keys, limit);
    WithoutContents(versions, todo, n);
    forall v | v in todo ensures v <= s.status.currentVersion {
      DoomedAreOld(versions.Keys, limit, s.status.currentVersion, v);
    }
  }

  // ---- what an undisturbed reconcile leaves ----

  lemma DoomedLow(keys: set<int>, limit: nat, kept: int, gone: int)
    requires kept in keys && kept !in Doomed(keys, limit) && gone in Doomed(keys, limit)
    ensures gone in keys && gone < kept
  {
    var sorted := SortedVersions(keys);
    assert forall i :: 0 <= i < |sorted| - limit ==> sorted[i] in Doomed(keys, limit);
    var i :| 0 <= i < |sorted| && sorted[i] == kept;
    var j :| 0 <= j < |sorted| - limit && sorted[j] == gone;
  }

  lemma {:induction false} AscendingSize(xs: seq<int>, keys: set<int>)
    requires Ascending(xs) && forall x :: x in xs <==> x in keys
    ensures |keys| == |xs|
  {
    if xs != [] {
      var rest := xs[1..];
      assert xs[0] in xs;
      forall x ensures x in rest <==> x in keys - {xs[0]} {
        if x in rest { assert x in xs && x != xs[0]; }
        if x in keys - {xs[0]} { assert x in xs; }
      }
      AscendingSize(rest, keys - {xs[0]});
    } else {
      forall x ensures x !in keys { assert x !in xs; }
      assert keys == {};
    }
  }

  /** Pruning leaves the highest `limit` versions as they are, or all of them if there are no more. */
  lemma PruneExact(versions: map<int, Content>, limit: nat)
    ensures
      var left := Without(versions, Doomed(versions.Keys, limit));
      && |left.Keys| == (if |versions.Keys| <= limit then |versions.Keys| else limit)
      && (forall v :: v in left ==> v in versions && left[v] == versions[v])
      && (forall kept, gone :: kept in left && gone in versions && gone !in left ==> gone < kept)
  {
    var keys, todo := versions.Keys, Doomed(versions.Keys, limit);
    var left := Without(versions, todo);
    forall v ensures (v in left <==> v in versions && v !in todo) && (v in left ==> left[v] == versions[v]) {
      WithoutContents(versions, todo, v);
    }
    forall kept, gone | kept in left && gone in versions && gone !in left ensures gone < kept { DoomedLow(keys, limit, kept, gone); }
    var sorted := SortedVersions(keys);
    var rest := sorted[|todo|..];
    SplitAscending(sorted, |todo|);
    AscendingSize(rest, left.Keys);
  }

  lemma SplitAscending(xs: seq<int>, k: nat)
    requires Ascending(xs) && k <= |xs|
    ensures Ascending(xs[k..]) && forall x :: x in xs[k..] <==> x in xs && x !in xs[..k]
  {
    assert forall i :: 0 <= i < k ==> xs[i] in xs[..k];
    forall x ensures x in xs[k..] <==> x in xs && x !in xs[..k] {
      if x in xs && x !in xs[..k] {
        var i :| 0 <= i < |xs| && xs[i] == x;
        assert xs[k..][i - k] == x;
      }
      if x in xs[k..] { var i :| 0 <= i < |xs| - k && xs[k..][i] == x; }
    }
  }

  /** `n` is the first of the eight numbers after the current one that is free or holds the content. */
  ghost predicate FirstUsable(s: State, content: Content, n: int) {
    && s.status.currentVersion < n <= s.status.currentVersion + 8
    && (n !in s.versions || s.versions[n] == content)
    && forall m :: s.status.currentVersion < m < n ==> m in s.versions && s.versions[m] != content
  }

  /** The state with the content recorded as version `n` at the current generation, the highest
      versions kept, and nothing else changed. */
  ghost predicate Records(limit: nat, s: State, s': State, n: int) {
    && s'.spec == s.spec && s'.generation == s.generation && s'.job == s.job
    && s'.status == Status(Ready, n, s.generation)
    && var versions := s.versions[n := s.spec.content];
       && |s'.versions.Keys| == (if |versions.Keys| <= limit then |versions.Keys| else limit)
       && (forall v :: v in s'.versions ==> v in versions && s'.versions[v] == versions[v])
       && (forall kept, gone :: kept in s'.versions && gone in versions && gone !in s'.versions ==> gone < kept)
  }

  lemma ProbedExact(limit: nat, s: State)
    requires s.job == Idle
    ensures
      var s' := Probed(limit, s, s.spec.content, s.generation, s.status.currentVersion + 1, 0);
      if exists n :: FirstUsable(s, s.spec.content, n) then exists n :: FirstUsable(s, s.spec.content, n) && Records(limit, s, s', n)
      else s' == s
  {
    var content := s.spec.content;
    SettleExact(s.versions, content, s.status.currentVersion + 1, 0);
    var r := Settle(s.versions, content, s.status.currentVersion + 1, 0);
    if r.Some? {
      assert FirstUsable(s, content, r.value);
      PruneExact(s.versions[r.value := content], limit);
      assert Records(limit, s, Recorded(limit, s, content, s.generation, r.value), r.value);
    }
  }

  /** Every way an undisturbed reconcile can end: a rollback to a version that is gone and a rego that
      does not compile make the policy Invalid, a policy up to date and one without a usable number are
      left alone, and otherwise the first usable number records the spec. */
  lemma ReconcileExact(limit: nat, valid: string -> bool, s: State)
    requires s.job == Idle
    ensures
      var s' := Reconciled(limit, valid, s);
      if s.spec.rollbackTo.Some? then
        var v := s.spec.rollbackTo.value;
        if v in s.versions then s' == s.(spec := Spec(s.versions[v], None, s.spec.description), generation := s.generation + 1)
        else s' == s.(status := s.status.(phase := Invalid))
      else if s.status.phase == Ready && s.status.observedGeneration == s.generation then s' == s
      else if !valid(s.spec.content.rego) then s' == s.(status := s.status.(phase := Invalid))
      else if exists n :: FirstUsable(s, s.spec.content, n) then
        exists n :: FirstUsable(s, s.spec.content, n) && Records(limit, s, s', n)
      else s' == s
  {
    if s.spec.rollbackTo.Some? {
      if s.spec.rollbackTo.value in s.versions { RollbackPatches(limit, valid, s, s.spec.rollbackTo.value); }
    } else if !UpToDate(s) {
      ReconciledIs(limit, valid, s);
      ProbedExact(limit, s);
    }
  }

  /** A patch whose base is the live object gives the target; one that changes nothing leaves the live
      object alone; and a field changed between base and target gets the target's value. */
  lemma PatchLaws(base: Content, target: Content, live: Content)
    ensures MergePatch(live, target, live) == target && MergePatch(base, base, live) == live
    ensures
      var r := MergePatch(base, target, live);
      && (base.rego != target.rego ==> r.rego == target.rego) && (base.operations != target.operations ==> r.operations == target.operations)
      && (base.resources != target.resources ==> r.resources == target.resources) && (base.mode != target.mode ==> r.mode == target.mode)
  {
  }

  // ---- the reconciler ----

  lemma AscendingUnique(xs: seq<int>, ys: seq<int>)
    requires Ascending(xs) && Ascending(ys) && forall x :: x in xs <==> x in ys
    ensures xs == ys
  {
    if ys != [] { assert ys[0] in ys; }
    if xs != [] {
      assert xs[0] in xs;
      assert xs[0] in ys && ys[0] in xs;
      assert xs[0] == ys[0];
      var x, y := xs[1..], ys[1..];
      forall v ensures v in x <==> v in y {
        if v in x { assert v in xs && v != xs[0]; }
        if v in y { assert v in ys && v != ys[0]; }
      }
      AscendingUnique(x, y);
    }
  }

  method SortVersions(keys: set<int>) returns (r: seq<int>)
    ensures r == SortedVersions(keys)
  {
    r := [];
    var rest := keys;
    while rest != {}
      invariant rest <= keys && Ascending(r)
      invariant forall x :: x in r <==> x in keys && x !in rest
      decreases rest
    {
      var k := PickAny(rest);
      r := InsertInt(k, r);
      rest := rest - {k};
    }
    AscendingUnique(r, SortedVersions(keys));
  }

  /** One Policy, its versions, and the reconciler acting on them. */
  class PolicyReconciler {
    const versionHistoryLimit: nat
    const compiles: string -> bool
    var spec: Spec
    var generation: int
    var status: Status
    var versions: map<int, Content>
    ghost var ever: map<int, Content>

    constructor (spec: Spec, limit: nat, compiles: string -> bool)
      ensures Initial(Current()) && this.spec == spec
      ensures versionHistoryLimit == limit && this.compiles == compiles
    {
      this.spec, generation, status, versions, ever := spec, 1, Status(Unset, 0, 0), map[], map[];
      versionHistoryLimit, this.compiles := limit, compiles;
    }

    ghost function Current(): State
      reads this
    {
      State(spec, generation, status, versions, ever, Idle)
    }

    /** `pruneVersions`. */
    method PruneVersions()
      modifies this`versions
      ensures versions == Without(old(versions), Doomed(old(versions.Keys), versionHistoryLimit))
    {
      var items := SortVersions(versions.Keys);
      if |items| <= versionHistoryLimit {
        return;
      }
      var toDelete := items[..|items| - versionHistoryLimit];
      assert toDelete == Doomed(versions.Keys, versionHistoryLimit);
      ghost var goal := Without(versions, toDelete);
      var rest := toDelete;
      while rest != []
        invariant Without(versions, rest) == goal
      {
        versions := versions - {rest[0]};
        rest := rest[1..];
      }
    }

    /** `Reconcile`, when nothing disturbs it. */
    method Reconcile() returns (requeue: bool)
      modifies this
      ensures Current() == Reconciled(versionHistoryLimit, compiles, old(Current()))
      ensures requeue <==> old(spec.rollbackTo.Some? && spec.rollbackTo.value in versions)
    {
      requeue := false;
      if spec.rollbackTo.Some? {
        requeue := HandleRollback();
        return;
      }
      if status.observedGeneration == generation && status.phase == Ready {
        return;
      }
      if !compiles(spec.content.rego) {
        status := status.(phase := Invalid);
        return;
      }
      ReconcileSpec();
    }

    /** Settle a version for the current spec, prune, and record it. */
    method ReconcileSpec()
      modifies this
      ensures Current() ==
        Probed(versionHistoryLimit, old(Current()), old(spec.content), old(generation), old(status.currentVersion) + 1, 0)
    {
      var settled, nextVersion := SettleVersion();
      if !settled {
        return;
      }
      PruneVersions();
      status := Status(Ready, nextVersion, generation);
    }

    /** The probe for a version number: create, or accept an equal snapshot, or try the next number. */
    method SettleVersion() returns (settled: bool, nextVersion: int)
      modifies this`versions, this`ever
      ensures
        var n := Settle(old(versions), spec.content, status.currentVersion + 1, 0);
        && settled == n.Some?
        && (n.None? ==> versions == old(versions) && ever == old(ever))
        && (n.Some? ==>
            && nextVersion == n.value
            && versions == old(versions)[n.value := spec.content]
            && ever == if n.value in old(versions) then old(ever) else old(ever)[n.value := spec.content])
    {
      nextVersion := status.currentVersion + 1;
      settled := false;
      var attempt := 0;
      while attempt < MAX_RETRIES
        invariant 0 <= attempt <= MAX_RETRIES && nextVersion == status.currentVersion + 1 + attempt
        invariant versions == old(versions) && ever == old(ever) && !settled
        invariant Settle(versions, spec.content, status.currentVersion + 1, 0) ==
          if attempt < MAX_RETRIES then Settle(versions, spec.content, nextVersion, attempt) else None
      {
        if nextVersion !in versions {
          versions, ever := versions[nextVersion := spec.content], ever[nextVersion := spec.content];
          settled := true;
          return;
        }
        if versions[nextVersion] == spec.content {
          settled := true;
          assert versions == versions[nextVersion := spec.content];
          return;
        }
        nextVersion := nextVersion + 1;
        attempt := attempt + 1;
      }
    }

    /** `handleRollback`: patch the spec back to the target, or mark the policy invalid. */
    method HandleRollback() returns (requeue: bool)
      requires spec.rollbackTo.Some?
      modifies this
      ensures Current() == Reconciled(versionHistoryLimit, compiles, old(Current()))
      ensures requeue <==> old(spec.rollbackTo.value in versions)
    {
      var target := spec.rollbackTo.value;
      requeue := target in versions;
      if requeue {
        spec := spec.(content := MergePatch(spec.content, versions[target], spec.content), rollbackTo := None);
        generation := generation + 1;
      } else {
        status := status.(phase := Invalid);
      }
    }
  }
}
