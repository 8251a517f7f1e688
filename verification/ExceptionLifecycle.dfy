/** The PolicyException lifecycle: Pending, Active, Expired, deleted; with clock ticks, spec edits
    under the admission rules, and references coming and going between reconciles.
    `parse` is `time.ParseDuration`, in nanoseconds. */
module ExceptionLifecycle {
  import opened Names
  import opened Strings

  datatype Phase = Fresh | Active | Expired | Invalid

  datatype Spec = Spec(
    policyRefs: seq<string>, policyGroupRefs: seq<string>, allPolicies: bool, match_: string,
    duration: string, retainAfterExpiry: string, reason: string)

  datatype Problem =
    | OneOf(count: nat)
    | NoReason
    | DurationUnparsable
    | DurationNotPositive
    | RetentionUnparsable
    | RetentionNegative
    | PolicyMissing(name: string)
    | GroupMissing(name: string)

  datatype Exception = Exception(
    createdAt: int, generation: int, spec: Spec, phase: Phase, message: Option<Problem>,
    effectiveAt: Option<int>, expiresAt: Option<int>, observedGeneration: int)

  datatype Requeue = Never | AtOnce | After(wait: int)

  /** What exists to be referred to. */
  datatype Refs = Refs(policies: set<string>, groups: set<string>)

  // ---- validation ----

  function Targets(s: Spec): nat {
    (if |s.policyRefs| > 0 then 1 else 0) + (if |s.policyGroupRefs| > 0 then 1 else 0) + (if s.allPolicies then 1 else 0)
  }

  function FirstMissing(names: seq<string>, known: set<string>, j: nat := 0): Option<string>
    requires j <= |names|
    decreases |names| - j
  {
    if j == |names| then None else if names[j] !in known then Some(names[j]) else FirstMissing(names, known, j + 1)
  }

  function RefProblem(s: Spec, refs: Refs): Option<Problem> {
    var p, g := FirstMissing(s.policyRefs, refs.policies), FirstMissing(s.policyGroupRefs, refs.groups);
    if p.Some? then Some(PolicyMissing(p.value)) else if g.Some? then Some(GroupMissing(g.value)) else None
  }

  function RetentionProblem(parse: string -> Option<int>, s: Spec): Option<Problem> {
    if s.retainAfterExpiry == "" then None
    else if parse(s.retainAfterExpiry).None? then Some(RetentionUnparsable)
    else if parse(s.retainAfterExpiry).value < 0 then Some(RetentionNegative)
    else None
  }

  /** The first thing wrong with a spec, in the order the reconciler looks. */
  function FirstProblem(parse: string -> Option<int>, s: Spec, refs: Refs): Option<Problem> {
    if Targets(s) != 1 then Some(OneOf(Targets(s)))
    else if TrimSpace(s.reason) == "" then Some(NoReason)
    else if parse(s.duration).None? then Some(DurationUnparsable)
    else if parse(s.duration).value <= 0 then Some(DurationNotPositive)
    else if RetentionProblem(parse, s).Some? then RetentionProblem(parse, s)
    else RefProblem(s, refs)
  }

  /** Exactly one kind of target is given. */
  predicate OneKind(s: Spec) {
    || (s.policyRefs != [] && s.policyGroupRefs == [] && !s.allPolicies)
    || (s.policyRefs == [] && s.policyGroupRefs != [] && !s.allPolicies)
    || (s.policyRefs == [] && s.policyGroupRefs == [] && s.allPolicies)
  }

  lemma {:induction false} FirstMissingExact(names: seq<string>, known: set<string>, j: nat)
    requires j <= |names|
    ensures FirstMissing(names, known, j).None? <==> forall i :: j <= i < |names| ==> names[i] in known
    ensures FirstMissing(names, known, j).Some? ==>
              exists i :: j <= i < |names| && names[i] == FirstMissing(names, known, j).value && names[i] !in known &&
                forall k :: j <= k < i ==> names[k] in known
    decreases |names| - j
  {
    if j < |names| && names[j] in known { FirstMissingExact(names, known, j + 1); }
  }

  /** One kind of target, a reason that is not blank, a positive duration, no retention or one that is
      not negative, and only references to what exists. */
  ghost predicate ValidSpec(parse: string -> Option<int>, s: Spec, refs: Refs) {
    && OneKind(s)
    && !Blank(s.reason)
    && parse(s.duration).Some? && parse(s.duration).value > 0
    && (s.retainAfterExpiry == "" || (parse(s.retainAfterExpiry).Some? && parse(s.retainAfterExpiry).value >= 0))
    && (forall i :: 0 <= i < |s.policyRefs| ==> s.policyRefs[i] in refs.policies)
    && (forall i :: 0 <= i < |s.policyGroupRefs| ==> s.policyGroupRefs[i] in refs.groups)
  }

  /** Nothing is wrong with a spec exactly when it is valid. */
  lemma ValidExactly(parse: string -> Option<int>, s: Spec, refs: Refs)
    ensures FirstProblem(parse, s, refs).None? <==> ValidSpec(parse, s, refs)
  {
    TrimBlank(s.reason);
    FirstMissingExact(s.policyRefs, refs.policies, 0);
    FirstMissingExact(s.policyGroupRefs, refs.groups, 0);
  }

  /** The name at `i` is the first that is not known. */
  predicate FirstUnknown(names: seq<string>, known: set<string>, n: string, i: int) {
    0 <= i < |names| && names[i] == n && n !in known && forall k :: 0 <= k < i ==> names[k] in known
  }

  ghost predicate Unknown(names: seq<string>, known: set<string>, n: string) {
    exists i :: FirstUnknown(names, known, n, i)
  }

  predicate AllKnown(names: seq<string>, known: set<string>) {
    forall i :: 0 <= i < |names| ==> names[i] in known
  }

  lemma UnknownExact(names: seq<string>, known: set<string>, n: string)
    ensures FirstMissing(names, known) == Some(n) <==> Unknown(names, known, n)
    ensures FirstMissing(names, known).None? <==> AllKnown(names, known)
  {
    FirstMissingExact(names, known, 0);
    var r := FirstMissing(names, known);
    if r.Some? {
      var i :| 0 <= i < |names| && names[i] == r.value && names[i] !in known && forall k :: 0 <= k < i ==> names[k] in known;
      assert FirstUnknown(names, known, r.value, i);
      if j :| FirstUnknown(names, known, n, j) { assert i == j; }
    }
  }

  ghost predicate TimesFine(parse: string -> Option<int>, s: Spec) {
    && parse(s.duration).Some? && parse(s.duration).value > 0
    && (s.retainAfterExpiry == "" || (parse(s.retainAfterExpiry).Some? && parse(s.retainAfterExpiry).value >= 0))
  }

  /** Which problem is reported: the targets go first, then the reason, the duration, the retention, the
      first missing policy and the first missing group. */
  lemma ProblemExact(parse: string -> Option<int>, s: Spec, refs: Refs, p: Problem)
    ensures FirstProblem(parse, s, refs) == Some(p) <==>
      match p
      case OneOf(count) => !OneKind(s) && count == (if s.policyRefs == [] then 0 else 1) + (if s.policyGroupRefs == [] then 0 else 1) + (if s.allPolicies then 1 else 0)
      case NoReason => OneKind(s) && Blank(s.reason)
      case DurationUnparsable => OneKind(s) && !Blank(s.reason) && parse(s.duration).None?
      case DurationNotPositive => OneKind(s) && !Blank(s.reason) && parse(s.duration).Some? && parse(s.duration).value <= 0
      case RetentionUnparsable =>
        && OneKind(s) && !Blank(s.reason) && parse(s.duration).Some? && parse(s.duration).value > 0
        && s.retainAfterExpiry != "" && parse(s.retainAfterExpiry).None?
      case RetentionNegative =>
        && OneKind(s) && !Blank(s.reason) && parse(s.duration).Some? && parse(s.duration).value > 0
        && s.retainAfterExpiry != "" && parse(s.retainAfterExpiry).Some? && parse(s.retainAfterExpiry).value < 0
      case PolicyMissing(n) => OneKind(s) && !Blank(s.reason) && TimesFine(parse, s) && Unknown(s.policyRefs, refs.policies, n)
      case GroupMissing(n) =>
        && OneKind(s) && !Blank(s.reason) && TimesFine(parse, s)
        && AllKnown(s.policyRefs, refs.policies) && Unknown(s.policyGroupRefs, refs.groups, n)
  {
    TrimBlank(s.reason);
    UnknownExact(s.policyRefs, refs.policies, if p.PolicyMissing? then p.name else "");
    UnknownExact(s.policyGroupRefs, refs.groups, if p.GroupMissing? then p.name else "");
  }

  /** Retention as the expiry handler reads it: a parse error counts as zero. */
  function Retention(parse: string -> Option<int>, s: Spec): int {
    if s.retainAfterExpiry == "" || parse(s.retainAfterExpiry).None? then 0 else parse(s.retainAfterExpiry).value
  }

  // ---- one reconcile at one clock reading ----

  datatype Outcome = Outcome(left: Option<Exception>, requeue: Requeue)

  function HandleExpired(parse: string -> Option<int>, e: Exception, now: int): Outcome {
    var e' := if e.expiresAt.None? then e.(expiresAt := Some(now)) else e;
    var deleteAt := e'.expiresAt.value + Retention(parse, e.spec);
    if now >= deleteAt then Outcome(None, Never) else Outcome(Some(e'), After(deleteAt - now))
  }

  function Reconcile(parse: string -> Option<int>, e: Exception, refs: Refs, now: int): Outcome {
    if e.phase == Expired then HandleExpired(parse, e, now)
    else
      var problem := FirstProblem(parse, e.spec, refs);
      if problem.Some? then
        Outcome(Some(e.(phase := Invalid, message := problem, observedGeneration := e.generation)), Never)
      else
        var expires := e.createdAt + parse(e.spec.duration).value;
        var e' := e.(message := None, effectiveAt := Some(e.createdAt), expiresAt := Some(expires), observedGeneration := e.generation);
        if now < expires then Outcome(Some(e'.(phase := Active)), After(expires - now))
        else Outcome(Some(e'.(phase := Expired)), AtOnce)
  }

  /** The reconciler over the stored object. */
  class ExceptionReconciler {
    const parse: string -> Option<int>
    var stored: Option<Exception>

    constructor (parse: string -> Option<int>)
      ensures this.parse == parse && stored == None
    {
      this.parse, stored := parse, None;
    }

    method MissingRef(names: seq<string>, known: set<string>) returns (missing: Option<string>)
      ensures missing == FirstMissing(names, known)
    {
      for i := 0 to |names|
        invariant FirstMissing(names, known) == FirstMissing(names, known, i)
      {
        if names[i] !in known {
          return Some(names[i]);
        }
      }
      return None;
    }

    method ValidateRefs(s: Spec, refs: Refs) returns (problem: Option<Problem>)
      ensures problem == RefProblem(s, refs)
    {
      var missing := MissingRef(s.policyRefs, refs.policies);
      if missing.Some? {
        return Some(PolicyMissing(missing.value));
      }
      missing := MissingRef(s.policyGroupRefs, refs.groups);
      if missing.Some? {
        return Some(GroupMissing(missing.value));
      }
      return None;
    }

    method Validate(s: Spec, refs: Refs) returns (problem: Option<Problem>)
      ensures problem == FirstProblem(parse, s, refs)
      ensures problem.None? <==> ValidSpec(parse, s, refs)
    {
      ValidExactly(parse, s, refs);
      var count := 0;
      if |s.policyRefs| > 0 { count := count + 1; }
      if |s.policyGroupRefs| > 0 { count := count + 1; }
      if s.allPolicies { count := count + 1; }
      if count != 1 {
        return Some(OneOf(count));
      }
      if TrimSpace(s.reason) == "" {
        return Some(NoReason);
      }
      var d := parse(s.duration);
      if d.None? {
        return Some(DurationUnparsable);
      }
      if d.value <= 0 {
        return Some(DurationNotPositive);
      }
      if s.retainAfterExpiry != "" {
        var retain := parse(s.retainAfterExpiry);
        if retain.None? {
          return Some(RetentionUnparsable);
        }
        if retain.value < 0 {
          return Some(RetentionNegative);
        }
      }
      problem := ValidateRefs(s, refs);
    }

    method ReconcileStored(refs: Refs, now: int) returns (requeue: Requeue)
      modifies this
      ensures old(stored).None? ==> stored == None && requeue == Never
      ensures old(stored).Some? ==>
        Outcome(stored, requeue) == Reconcile(parse, old(stored).value, refs, now)
    {
      if stored.None? {
        return Never;
      }
      var e := stored.value;
      if e.phase == Expired {
        requeue := ExpireStored(now);
        return;
      }
      var problem := Validate(e.spec, refs);
      if problem.Some? {
        stored := Some(e.(phase := Invalid, message := problem, observedGeneration := e.generation));
        return Never;
      }
      var expires := e.createdAt + parse(e.spec.duration).value;
      if now < expires {
        // An unchanged status is not written again.
        if e.phase == Active && e.message == None && e.observedGeneration == e.generation &&
           e.effectiveAt == Some(e.createdAt) && e.expiresAt == Some(expires) {
          return After(expires - now);
        }
        stored := Some(e.(phase := Active, message := None, effectiveAt := Some(e.createdAt),
                          expiresAt := Some(expires), observedGeneration := e.generation));
        return After(expires - now);
      }
      stored := Some(e.(phase := Expired, message := None, effectiveAt := Some(e.createdAt),
                        expiresAt := Some(expires), observedGeneration := e.generation));
      requeue := AtOnce;
    }

    method ExpireStored(now: int) returns (requeue: Requeue)
      requires stored.Some? && stored.value.phase == Expired
      modifies this
      ensures Outcome(stored, requeue) == HandleExpired(parse, old(stored).value, now)
    {
      var e := stored.value;
      var retain := 0;
      if e.spec.retainAfterExpiry != "" && parse(e.spec.retainAfterExpiry).Some? {
        retain := parse(e.spec.retainAfterExpiry).value;
      }
      if e.expiresAt.None? {
        e := e.(expiresAt := Some(now));
        stored := Some(e);
      }
      var deleteAt := e.expiresAt.value + retain;
      if now >= deleteAt {
        stored := None;
        return Never;
      }
      requeue := After(deleteAt - now);
    }
  }

  // ---- runs ----

  datatype World = World(now: int, refs: Refs, stored: Option<Exception>)

  datatype Event =
    | Create(spec: Spec)
    | Tick(dt: nat)
    | Edit(spec: Spec)
    | ChangeRefs(refs: Refs)
    | RunReconcile
    | UserDelete

  /** Targets and match are immutable, and an expired exception's spec is frozen. */
  predicate EditAllowed(e: Exception, spec: Spec) {
    && spec.policyRefs == e.spec.policyRefs && spec.policyGroupRefs == e.spec.policyGroupRefs
    && spec.allPolicies == e.spec.allPolicies && spec.match_ == e.spec.match_
    && (e.phase == Expired ==> spec == e.spec)
  }

  predicate Enabled(w: World, ev: Event) {
    match ev
    case Create(_) => w.stored.None?
    case Edit(spec) => w.stored.Some? && EditAllowed(w.stored.value, spec)
    case RunReconcile => w.stored.Some?
    case _ => true
  }

  function Apply(parse: string -> Option<int>, w: World, ev: Event): World
    requires Enabled(w, ev)
  {
    match ev
    case Create(spec) => w.(stored := Some(Exception(w.now, 1, spec, Fresh, None, None, None, 0)))
    case Tick(dt) => w.(now := w.now + dt)
    case Edit(spec) =>
      if spec == w.stored.value.spec then w
      else w.(stored := Some(w.stored.value.(spec := spec, generation := w.stored.value.generation + 1)))
    case ChangeRefs(refs) => w.(refs := refs)
    case RunReconcile => w.(stored := Reconcile(parse, w.stored.value, w.refs, w.now).left)
    case UserDelete => w.(stored := None)
  }

  /** An expired object passed its own expiry, and its frozen spec says when that was. */
  predicate Sound(parse: string -> Option<int>, w: World) {
    w.stored.Some? ==>
      var e := w.stored.value;
      && e.createdAt <= w.now
      && (e.phase == Expired ==>
          && parse(e.spec.duration).Some? && e.expiresAt == Some(e.createdAt + parse(e.spec.duration).value)
          && RetentionProblem(parse, e.spec).None?
          && w.now >= e.expiresAt.value)
  }

  lemma SoundEvent(parse: string -> Option<int>, w: World, ev: Event)
    requires Sound(parse, w) && Enabled(w, ev)
    ensures Sound(parse, Apply(parse, w, ev))
  {
  }

  ghost predicate StepAt(parse: string -> Option<int>, ws: seq<World>, evs: seq<Event>, i: nat)
    requires i < |evs| < |ws|
  {
    Enabled(ws[i], evs[i]) && ws[i + 1] == Apply(parse, ws[i], evs[i])
  }

  ghost predicate Run(parse: string -> Option<int>, ws: seq<World>, evs: seq<Event>) {
    |ws| == |evs| + 1 && ws[0].stored.None? && forall i :: 0 <= i < |evs| ==> StepAt(parse, ws, evs, i)
  }

  lemma {:induction false} RunSound(parse: string -> Option<int>, ws: seq<World>, evs: seq<Event>, i: nat)
    requires Run(parse, ws, evs) && i < |ws|
    ensures Sound(parse, ws[i])
  {
    if i > 0 {
      RunSound(parse, ws, evs, i - 1);
      assert StepAt(parse, ws, evs, i - 1);
      SoundEvent(parse, ws[i - 1], evs[i - 1]);
    }
  }

  /** Expired is left only by deletion: until one happens the object stays exactly as it is. */
  lemma {:induction false} ExpiredIsTerminal(parse: string -> Option<int>, ws: seq<World>, evs: seq<Event>, i: nat, j: nat)
    requires Run(parse, ws, evs) && i <= j < |ws|
    requires ws[i].stored.Some? && ws[i].stored.value.phase == Expired
    requires forall k :: i <= k <= j ==> ws[k].stored.Some?
    ensures ws[j].stored == ws[i].stored
  {
    if i < j {
      ExpiredIsTerminal(parse, ws, evs, i, j - 1);
      RunSound(parse, ws, evs, j - 1);
      assert StepAt(parse, ws, evs, j - 1);
    }
  }

  /** A reconcile leaves the exception Active iff it was not expired, nothing is wrong with it and
      the clock is before creation plus duration. */
  lemma ActiveOnlyBeforeExpiry(parse: string -> Option<int>, ws: seq<World>, evs: seq<Event>, i: nat)
    requires Run(parse, ws, evs) && i < |evs| && evs[i] == RunReconcile
    ensures ws[i].stored.Some?
    ensures
      var e := ws[i].stored.value;
      ws[i + 1].stored.Some? && ws[i + 1].stored.value.phase == Active <==>
        && e.phase != Expired && FirstProblem(parse, e.spec, ws[i].refs).None?
        && ws[i].now < e.createdAt + parse(e.spec.duration).value
  {
    assert StepAt(parse, ws, evs, i);
  }

  /** In every state of a run whose phase is Active, some reconcile left it so and none has come since;
      the recorded expiry is creation plus the duration that reconcile read, and its clock was before it. */
  lemma {:induction false} ActiveWasBeforeExpiry(parse: string -> Option<int>, ws: seq<World>, evs: seq<Event>, i: nat)
    returns (j: nat)
    requires Run(parse, ws, evs) && i < |ws|
    requires ws[i].stored.Some? && ws[i].stored.value.phase == Active
    ensures j < i && evs[j] == RunReconcile && forall k :: j < k < i ==> evs[k] != RunReconcile
    ensures ws[j].stored.Some? && FirstProblem(parse, ws[j].stored.value.spec, ws[j].refs).None?
    ensures
      var e := ws[j].stored.value;
      && ws[i].stored.value.expiresAt == Some(e.createdAt + parse(e.spec.duration).value)
      && ws[j].now < e.createdAt + parse(e.spec.duration).value
  {
    assert StepAt(parse, ws, evs, i - 1);
    if evs[i - 1] == RunReconcile {
      j := i - 1;
      ActiveOnlyBeforeExpiry(parse, ws, evs, j);
    } else {
      j := ActiveWasBeforeExpiry(parse, ws, evs, i - 1);
    }
  }

  /** The reconciler deletes exactly the stored-Expired exceptions whose expiry plus retention has
      come; by then creation plus duration plus retention has passed. */
  lemma DeletedOnlyWhenDue(parse: string -> Option<int>, ws: seq<World>, evs: seq<Event>, i: nat)
    requires Run(parse, ws, evs) && i < |evs| && evs[i] == RunReconcile
    ensures ws[i].stored.Some?
    ensures
      var e := ws[i].stored.value;
      ws[i + 1].stored.None? <==>
        && e.phase == Expired && parse(e.spec.duration).Some?
        && ws[i].now >= e.createdAt + parse(e.spec.duration).value + Retention(parse, e.spec)
  {
    RunSound(parse, ws, evs, i);
    assert StepAt(parse, ws, evs, i);
  }

  // ---- the exception is gone after four reconciles ----

  function Again(parse: string -> Option<int>, e: Option<Exception>, refs: Refs, now: int): Outcome {
    if e.None? then Outcome(None, Never) else Reconcile(parse, e.value, refs, now)
  }

  /** The next reconcile comes no earlier than asked for. */
  predicate Follows(requeue: Requeue, now: int, next: int) {
    match requeue case Never => now <= next case AtOnce => now <= next case After(wait) => now + wait <= next
  }

  /** With a valid spec whose references exist, following the requeue times deletes within four. */
  lemma GoneWithinFour(parse: string -> Option<int>, e: Exception, refs: Refs, t1: int, t2: int, t3: int, t4: int)
    requires FirstProblem(parse, e.spec, refs).None? && (e.phase == Expired ==> e.expiresAt.Some?)
    requires
      var o1 := Reconcile(parse, e, refs, t1);
      var o2 := Again(parse, o1.left, refs, t2);
      var o3 := Again(parse, o2.left, refs, t3);
      Follows(o1.requeue, t1, t2) && Follows(o2.requeue, t2, t3) && Follows(o3.requeue, t3, t4)
    ensures
      var o1 := Reconcile(parse, e, refs, t1);
      var o2 := Again(parse, o1.left, refs, t2);
      var o3 := Again(parse, o2.left, refs, t3);
      Again(parse, o3.left, refs, t4).left == None
  {
    var o1 := Reconcile(parse, e, refs, t1);
    if e.phase == Expired {
      ExpiredGoneWithinTwo(parse, e, refs, t1, t2);
    } else {
      var e1 := o1.left.value;
      assert FirstProblem(parse, e1.spec, refs).None?;
      if e1.phase == Expired {
        ExpiredGoneWithinTwo(parse, e1, refs, t2, t3);
      } else {
        var e2 := Reconcile(parse, e1, refs, t2).left.value;
        assert e2.phase == Expired;
        ExpiredGoneWithinTwo(parse, e2, refs, t3, t4);
      }
    }
  }

  lemma ExpiredGoneWithinTwo(parse: string -> Option<int>, e: Exception, refs: Refs, now: int, next: int)
    requires e.phase == Expired && e.expiresAt.Some? && Follows(Reconcile(parse, e, refs, now).requeue, now, next)
    ensures Again(parse, Reconcile(parse, e, refs, now).left, refs, next).left == None
  {
  }

  /** Four can be needed: with a retention period, three punctual reconciles leave it in place. */
  lemma FourAreNeeded(parse: string -> Option<int>, e: Exception, refs: Refs)
    requires FirstProblem(parse, e.spec, refs).None? && e.phase != Expired && Retention(parse, e.spec) > 0
    ensures
      var t1, t2 := e.createdAt, e.createdAt + parse(e.spec.duration).value;
      var o1 := Reconcile(parse, e, refs, t1);
      var o2 := Again(parse, o1.left, refs, t2);
      var o3 := Again(parse, o2.left, refs, t2);
      Follows(o1.requeue, t1, t2) && Follows(o2.requeue, t2, t2) && o3.left.Some?
  {
    var t1, t2 := e.createdAt, e.createdAt + parse(e.spec.duration).value;
    var e1 := Reconcile(parse, e, refs, t1).left.value;
    assert FirstProblem(parse, e1.spec, refs).None?;
  }

  // ---- when the reconciler comes back ----

  /** Each requeue is for the moment of the next change and no later: at the expiry while Active, at
      expiry plus retention while Expired, at once when it has just expired, never when Invalid or gone. */
  lemma RequeueExact(parse: string -> Option<int>, e: Exception, refs: Refs, now: int)
    ensures
      var o := Reconcile(parse, e, refs, now);
      match o.requeue
      case Never => o.left.None? || o.left.value.phase == Invalid
      case AtOnce => e.phase != Expired && o.left.Some? && o.left.value.phase == Expired && now >= o.left.value.expiresAt.value
      case After(wait) =>
        && wait > 0 && o.left.Some? && o.left.value.expiresAt.Some?
        && (o.left.value.phase == Active ==> now + wait == o.left.value.expiresAt.value)
        && (o.left.value.phase == Expired ==> e.phase == Expired && now + wait == o.left.value.expiresAt.value + Retention(parse, e.spec))
        && (o.left.value.phase == Active || o.left.value.phase == Expired)
  {
  }

  /** What a reconcile writes into an exception that has not expired. */
  lemma StatusExact(parse: string -> Option<int>, e: Exception, refs: Refs, now: int)
    requires e.phase != Expired
    ensures
      var o := Reconcile(parse, e, refs, now);
      && o.left.Some?
      && var e' := o.left.value;
         && e'.createdAt == e.createdAt && e'.generation == e.generation && e'.spec == e.spec && e'.observedGeneration == e.generation
         && (if ValidSpec(parse, e.spec, refs) then
               && e'.message == None && e'.effectiveAt == Some(e.createdAt)
               && e'.expiresAt == Some(e.createdAt + parse(e.spec.duration).value)
               && e'.phase == (if now < e.createdAt + parse(e.spec.duration).value then Active else Expired)
             else
               e'.phase == Invalid && e'.message == FirstProblem(parse, e.spec, refs) && e'.message.Some?
               && e'.effectiveAt == e.effectiveAt && e'.expiresAt == e.expiresAt)
  {
    ValidExactly(parse, e.spec, refs);
  }

  /** Reconciled exactly when asked for, a valid exception is Active until creation plus duration, is
      marked Expired at that moment, and is gone at creation plus duration plus retention. */
  lemma PunctualTimeline(parse: string -> Option<int>, e: Exception, refs: Refs, now: int)
    requires e.phase != Expired && ValidSpec(parse, e.spec, refs) && now < e.createdAt + parse(e.spec.duration).value
    ensures
      var expires := e.createdAt + parse(e.spec.duration).value;
      var deleted := expires + if e.spec.retainAfterExpiry == "" then 0 else parse(e.spec.retainAfterExpiry).value;
      var o1 := Reconcile(parse, e, refs, now);
      var o2 := Again(parse, o1.left, refs, expires);
      var o3 := Again(parse, o2.left, refs, expires);
      && o1.requeue == After(expires - now) && o1.left.Some? && o1.left.value.phase == Active
      && o2.requeue == AtOnce && o2.left.Some? && o2.left.value.phase == Expired
      && (if deleted == expires then o3 == Outcome(None, Never)
          else o3.requeue == After(deleted - expires) && Again(parse, o3.left, refs, deleted) == Outcome(None, Never))
  {
    ValidExactly(parse, e.spec, refs);
    var e1 := Reconcile(parse, e, refs, now).left.value;
    assert FirstProblem(parse, e1.spec, refs).None?;
  }

  // ---- edits, and whole lives ----

  /** In every run an exception keeps its targets and its match for as long as it is stored, and its spec
      as a whole once it has expired. */
  lemma {:induction false} TargetsImmutable(parse: string -> Option<int>, ws: seq<World>, evs: seq<Event>, i: nat, j: nat)
    requires Run(parse, ws, evs) && i <= j < |ws| && forall k :: i <= k <= j ==> ws[k].stored.Some?
    ensures
      var s, s' := ws[i].stored.value.spec, ws[j].stored.value.spec;
      && s'.policyRefs == s.policyRefs && s'.policyGroupRefs == s.policyGroupRefs && s'.allPolicies == s.allPolicies && s'.match_ == s.match_
      && ws[j].stored.value.createdAt == ws[i].stored.value.createdAt
      && (ws[i].stored.value.phase == Expired ==> s' == s)
  {
    if i < j {
      TargetsImmutable(parse, ws, evs, i, j - 1);
      if ws[i].stored.value.phase == Expired { ExpiredIsTerminal(parse, ws, evs, i, j); }
      assert StepAt(parse, ws, evs, j - 1);
    }
  }

  /** An allowed edit makes a new generation, and the reconcile after it goes by the new spec alone. */
  lemma EditTakesEffect(parse: string -> Option<int>, w: World, spec: Spec)
    requires w.stored.Some? && w.stored.value.phase != Expired && EditAllowed(w.stored.value, spec)
    ensures
      var e := w.stored.value;
      var w1 := Apply(parse, w, Edit(spec));
      && w1.stored.Some?
      && var w2 := Apply(parse, w1, RunReconcile);
         && w2.stored.Some?
         && var e' := w2.stored.value;
            && e'.spec == spec && e'.createdAt == e.createdAt && e'.observedGeneration == e'.generation
            && e'.generation == (if spec == e.spec then e.generation else e.generation + 1)
            && (e'.phase == Invalid <==> !ValidSpec(parse, spec, w.refs))
            && (e'.phase == Active <==> ValidSpec(parse, spec, w.refs) && w.now < e.createdAt + parse(spec.duration).value)
  {
    StatusExact(parse, Apply(parse, w, Edit(spec)).stored.value, w.refs, w.now);
  }

  ghost function LastOf(ws: seq<World>): World
    requires ws != []
  {
    ws[|ws| - 1]
  }

  lemma Extend(parse: string -> Option<int>, ws: seq<World>, evs: seq<Event>, ev: Event) returns (ws': seq<World>, evs': seq<Event>)
    requires Run(parse, ws, evs) && Enabled(LastOf(ws), ev)
    ensures Run(parse, ws', evs') && ws <= ws' && evs <= evs' && LastOf(ws') == Apply(parse, LastOf(ws), ev)
  {
    ws', evs' := ws + [Apply(parse, LastOf(ws), ev)], evs + [ev];
    forall i | 0 <= i < |evs'| ensures StepAt(parse, ws', evs', i) {
      if i < |evs| { assert StepAt(parse, ws, evs, i); }
    }
  }

  /** Every run without a stored exception can be carried on through the whole life of any valid one:
      Active once reconciled, Expired a duration later, and gone a retention after that. */
  lemma LivesAndDies(parse: string -> Option<int>, ws: seq<World>, evs: seq<Event>, spec: Spec, refs: Refs)
    returns (ws1: seq<World>, evs1: seq<Event>, ws2: seq<World>, evs2: seq<Event>, ws3: seq<World>, evs3: seq<Event>)
    requires Run(parse, ws, evs) && LastOf(ws).stored.None? && ValidSpec(parse, spec, refs)
    ensures Run(parse, ws1, evs1) && Run(parse, ws2, evs2) && Run(parse, ws3, evs3) && ws <= ws1 <= ws2 <= ws3
    ensures
      var t, expires := LastOf(ws).now, LastOf(ws).now + parse(spec.duration).value;
      && LastOf(ws1).stored.Some? && LastOf(ws1).stored.value.phase == Active && LastOf(ws1).now == t
      && LastOf(ws1).stored.value.expiresAt == Some(expires)
      && LastOf(ws2).stored.Some? && LastOf(ws2).stored.value.phase == Expired && LastOf(ws2).now == expires
      && LastOf(ws3).stored == None
      && LastOf(ws3).now == expires + if spec.retainAfterExpiry == "" then 0 else parse(spec.retainAfterExpiry).value
  {
    ValidExactly(parse, spec, refs);
    ws1, evs1 := Extend(parse, ws, evs, ChangeRefs(refs));
    ws1, evs1 := Extend(parse, ws1, evs1, Create(spec));
    ws1, evs1 := Extend(parse, ws1, evs1, RunReconcile);
    ws2, evs2 := Extend(parse, ws1, evs1, Tick(parse(spec.duration).value));
    ws2, evs2 := Extend(parse, ws2, evs2, RunReconcile);
    ws3, evs3 := Extend(parse, ws2, evs2, Tick(Retention(parse, spec)));
    ws3, evs3 := Extend(parse, ws3, evs3, RunReconcile);
  }
}
