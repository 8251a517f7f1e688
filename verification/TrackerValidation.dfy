/** When the reports of a tracker pass `Validate` at the receiver. Truncation counts characters and
    validation counts bytes, so the condition is on the bytes of what was passed in, once cut. */
module TrackerValidation {
  import opened Names
  import opened Tracker
  import opened TrackerTheorems

  /** What a UTF-8 sequence of so many octets can hold, section 3 of RFC 3629. */
  function Utf8Capacity(octets: nat): nat {
    if octets == 1 then 0x80 else if octets == 2 then 0x800 else if octets == 3 then 0x10000 else 0x200000
  }

  /** Go's `len` counts the shortest sequence that can hold the character. */
  lemma Utf8Shortest(c: char, octets: nat)
    requires 1 <= octets <= 4
    ensures Utf8Size(c) == octets <==>
            (octets == 4 || c as int < Utf8Capacity(octets)) && forall k :: 1 <= k < octets ==> c as int >= Utf8Capacity(k)
  {
    if octets > 1 { assert c as int >= Utf8Capacity(octets - 1) || !(forall k :: 1 <= k < octets ==> c as int >= Utf8Capacity(k)); }
  }

  /** `Incident.Validate`. */
  predicate Validates(i: Incident) {
    && i.key != "" && ByteLength(i.key) <= MAX_IDENTITY
    && i.reporter != "" && ByteLength(i.reporter) <= MAX_IDENTITY
    && i.revision != 0
    && ValidComponent(i.component)
    && ValidReason(i.reason)
    && i.startedAt != 0 && i.lastSeenAt != 0
    && i.lastSeenAt >= i.startedAt
    && i.affected > 0
    && |i.samples| <= MAX_SAMPLES
    && ByteLength(i.detail) <= MAX_DETAIL
  }

  datatype Fault =
    | BadKey | BadReporter | NoRevision | BadComponent(component: string) | BadReason(reason: string)
    | NoTimestamp | SeenBeforeStart | NothingAffected | TooManySamples | DetailTooLong

  /** The first thing wrong with an incident; none exactly when it validates. */
  method Validate(i: Incident) returns (fault: Option<Fault>)
    ensures fault.None? <==> Validates(i)
    ensures fault == Some(SeenBeforeStart) ==> i.lastSeenAt < i.startedAt && i.lastSeenAt != 0
    ensures fault == Some(DetailTooLong) ==> ByteLength(i.detail) > 200
    ensures fault == Some(BadReporter) ==> i.reporter == "" || ByteLength(i.reporter) > 128
  {
    if i.key == "" || ByteLength(i.key) > MAX_IDENTITY { return Some(BadKey); }
    if i.reporter == "" || ByteLength(i.reporter) > MAX_IDENTITY { return Some(BadReporter); }
    if i.revision == 0 { return Some(NoRevision); }
    if !ValidComponent(i.component) { return Some(BadComponent(i.component)); }
    if !ValidReason(i.reason) { return Some(BadReason(i.reason)); }
    if i.startedAt == 0 || i.lastSeenAt == 0 { return Some(NoTimestamp); }
    if i.lastSeenAt < i.startedAt { return Some(SeenBeforeStart); }
    if i.affected <= 0 { return Some(NothingAffected); }
    if |i.samples| > MAX_SAMPLES { return Some(TooManySamples); }
    if ByteLength(i.detail) > MAX_DETAIL { return Some(DetailTooLong); }
    return None;
  }

  predicate Identity(id: string) {
    id != "" && ByteLength(id) <= MAX_IDENTITY
  }

  /** What every tracked incident satisfies while the clock has not passed `clock`. */
  predicate Sound(cfg: Config, i: Incident, clock: int) {
    && Identity(i.key) && i.reporter == cfg.instanceID && i.component == cfg.component
    && i.revision > 0 && ValidReason(i.reason)
    && 0 < i.startedAt <= i.lastSeenAt <= clock
    && i.affected > 0 && |i.samples| <= MAX_SAMPLES && |i.detail| <= MAX_DETAIL
  }

  ghost predicate AllSound(cfg: Config, w: World, clock: int) {
    && (forall r :: r in w.active ==> Sound(cfg, w.active[r], clock))
    && (forall k :: k in w.pending ==> Sound(cfg, w.pending[k], clock))
  }

  predicate GoodId(id: Option<string>) {
    id.Some? ==> Identity(id.value)
  }

  /** Drawn identities are well formed and the clock does not run backwards. */
  predicate Timely(op: Op, clock: int) {
    match op
    case RecordOp(_, _, _, _, now, dropId, id) => 0 < now && clock <= now && GoodId(dropId) && GoodId(id)
    case SnapshotOp(_, ids, now) => 0 < now && clock <= now && forall i :: 0 <= i < |ids| ==> GoodId(ids[i])
    case _ => true
  }

  function Clock(op: Op, clock: int): int {
    match op case RecordOp(_, _, _, _, now, _, _) => now case SnapshotOp(_, _, now) => now case _ => clock
  }

  lemma DropSound(cfg: Config, w: World, now: int, id: Option<string>)
    requires AllSound(cfg, w, now) && 0 < now && GoodId(id)
    ensures AllSound(cfg, RecordDrop(cfg, w, now, id), now)
  {
  }

  lemma EvictSound(cfg: Config, w: World, reason: string, now: int, id: Option<string>)
    requires AllSound(cfg, w, now) && 0 < now && GoodId(id)
    ensures AllSound(cfg, Evict(cfg, w, reason, now, id), now)
  {
    if w.order != [] && w.order[0] in w.pending { DropSound(cfg, Popped(w), now, id); }
  }

  lemma CloseSound(cfg: Config, w: World, reason: string, now: int, id: Option<string>)
    requires AllSound(cfg, w, now) && 0 < now && GoodId(id) && reason in w.active
    ensures AllSound(cfg, Close(cfg, w, reason, now, id), now)
  {
    EvictSound(cfg, w.(active := w.active - {reason}), reason, now, id);
  }

  lemma NoteSound(cfg: Config, w: World, reason: string, affected: int, sample: string, detail: string, now: int, id: Option<string>)
    requires AllSound(cfg, w, now) && 0 < now && GoodId(id) && ValidReason(reason) && affected > 0
    ensures AllSound(cfg, Note(cfg, w, reason, affected, sample, detail, now, id), now)
  {
  }

  lemma {:induction false} CloseAllSound(cfg: Config, w: World, reasons: seq<string>, ids: seq<Option<string>>, now: int, j: nat)
    requires AllSound(cfg, w, now) && 0 < now && j <= |reasons| <= |ids| && forall i :: 0 <= i < |ids| ==> GoodId(ids[i])
    ensures AllSound(cfg, CloseAll(cfg, w, reasons, ids, now, j), now)
  {
    if j > 0 {
      CloseAllSound(cfg, w, reasons, ids, now, j - 1);
      var w' := CloseAll(cfg, w, reasons, ids, now, j - 1);
      if reasons[j - 1] in w'.active { CloseSound(cfg, w', reasons[j - 1], now, ids[j - 1]); }
    }
  }

  lemma ApplySound(cfg: Config, w: World, op: Op, clock: int)
    requires AllSound(cfg, w, clock) && Legal(cfg, w, op) && Timely(op, clock)
    ensures AllSound(cfg, Apply(cfg, w, op), Clock(op, clock))
  {
    match op {
      case RecordOp(reason, affected, sample, detail, now, dropId, id) =>
        if ValidReason(reason) {
          var stale := reason in w.active && Stale(cfg, w.active[reason], now);
          if stale { CloseSound(cfg, w, reason, now, dropId); }
          NoteSound(cfg, if stale then Close(cfg, w, reason, now, dropId) else w,
            reason, if affected <= 0 then 1 else affected, sample, detail, now, id);
        }
      case SnapshotOp(stale, ids, now) => CloseAllSound(cfg, w, stale, ids, now, |stale|);
      case _ =>
    }
  }

  function ClockAt(ops: seq<Op>, i: nat): int
    requires i <= |ops|
  {
    if i == 0 then 0 else Clock(ops[i - 1], ClockAt(ops, i - 1))
  }

  lemma {:induction false} RunSound(cfg: Config, ws: seq<World>, ops: seq<Op>, i: nat)
    requires Run(cfg, ws, ops) && i < |ws| && forall j :: 0 <= j < |ops| ==> Timely(ops[j], ClockAt(ops, j))
    ensures AllSound(cfg, ws[i], ClockAt(ops, i))
  {
    if i > 0 {
      RunSound(cfg, ws, ops, i - 1);
      assert StepAt(cfg, ws, ops, i - 1);
      ApplySound(cfg, ws[i - 1], ops[i - 1], ClockAt(ops, i - 1));
    }
  }

  // ---- where details come from ----

  /** For each incident key, the detail of the latest `Record` it took; `w` is the state after `op`. */
  function Saying(said: map<string, string>, w: World, op: Op): map<string, string> {
    if op.RecordOp? && ValidReason(op.reason) && op.reason in w.active then said[w.active[op.reason].key := op.detail]
    else said
  }

  function Said(ws: seq<World>, ops: seq<Op>, i: nat): map<string, string>
    requires i <= |ops| < |ws|
  {
    if i == 0 then map[] else Saying(Said(ws, ops, i - 1), ws[i], ops[i - 1])
  }

  /** The argument an incident's detail stems from; a self-report that took no `Record` has its own. */
  function LastDetail(said: map<string, string>, key: string): string {
    if key in said then said[key] else DROP_DETAIL
  }

  predicate SaysLast(said: map<string, string>, i: Incident) {
    i.detail == Truncate(LastDetail(said, i.key), MAX_DETAIL)
  }

  ghost predicate Detailed(w: World, said: map<string, string>) {
    && said.Keys <= w.used
    && (forall r :: r in w.active ==> SaysLast(said, w.active[r]))
    && (forall k :: k in w.pending ==> SaysLast(said, w.pending[k]))
  }

  lemma DropDetailed(cfg: Config, w: World, now: int, id: Option<string>, said: map<string, string>)
    requires Detailed(w, said) && Unused(w, id)
    ensures Detailed(RecordDrop(cfg, w, now, id), said)
  {
  }

  lemma EvictDetailed(cfg: Config, w: World, reason: string, now: int, id: Option<string>, said: map<string, string>)
    requires Detailed(w, said) && Unused(w, id)
    ensures Detailed(Evict(cfg, w, reason, now, id), said)
  {
    if w.order != [] && w.order[0] in w.pending { DropDetailed(cfg, Popped(w), now, id, said); }
  }

  lemma CloseDetailed(cfg: Config, w: World, reason: string, now: int, id: Option<string>, said: map<string, string>)
    requires Detailed(w, said) && Unused(w, id) && reason in w.active
    ensures Detailed(Close(cfg, w, reason, now, id), said)
  {
    EvictDetailed(cfg, w.(active := w.active - {reason}), reason, now, id, said);
  }

  lemma DetailedStep(cfg: Config, w: World, reason: string, now: int, id: Option<string>, said: map<string, string>)
    requires Detailed(w, said) && Unused(w, id)
    ensures Detailed(if reason in w.active then Close(cfg, w, reason, now, id) else w, said)
  {
    if reason in w.active { CloseDetailed(cfg, w, reason, now, id, said); }
  }

  lemma {:induction false} CloseAllDetailed(
    cfg: Config, w: World, reasons: seq<string>, ids: seq<Option<string>>, now: int, j: nat, said: map<string, string>)
    requires ReadyAll(cfg, w, reasons, ids, now) && j <= |reasons| && Detailed(w, said)
    ensures Detailed(CloseAll(cfg, w, reasons, ids, now, j), said)
  {
    if j > 0 {
      CloseAllDetailed(cfg, w, reasons, ids, now, j - 1, said);
      assert ReadyAt(cfg, w, reasons, ids, now, j - 1);
      DetailedStep(cfg, CloseAll(cfg, w, reasons, ids, now, j - 1), reasons[j - 1], now, ids[j - 1], said);
    }
  }

  lemma NoteDetailed(
    cfg: Config, w: World, reason: string, affected: int, sample: string, detail: string, now: int, id: Option<string>,
    said: map<string, string>)
    requires Structured(cfg, w) && Detailed(w, said) && Unused(w, id)
    ensures
      var w' := Note(cfg, w, reason, affected, sample, detail, now, id);
      Detailed(w', if reason in w'.active then said[w'.active[reason].key := detail] else said)
  {
    if reason in w.active {
      OthersKept(w, said, reason, w.active[reason].key, detail);
    } else if id.Some? {
      OthersKept(w, said, reason, id.value, detail);
    }
  }

  /** What is said of one incident leaves the others' details alone. */
  lemma OthersKept(w: World, said: map<string, string>, reason: string, key: string, detail: string)
    requires Detailed(w, said) && Opened(w.active, w.used) && Queued(w.pending, w.order, w.used) && Apart(w.active, w.pending)
    requires (reason in w.active && w.active[reason].key == key) || key !in w.used
    ensures forall r :: r in w.active && r != reason ==> SaysLast(said[key := detail], w.active[r])
    ensures forall k :: k in w.pending ==> SaysLast(said[key := detail], w.pending[k])
  {
  }

  lemma ApplyDetailed(cfg: Config, w: World, op: Op, said: map<string, string>)
    requires Structured(cfg, w) && Legal(cfg, w, op) && Detailed(w, said)
    ensures Detailed(Apply(cfg, w, op), Saying(said, Apply(cfg, w, op), op))
  {
    match op {
      case RecordOp(reason, affected, sample, detail, now, dropId, id) =>
        if ValidReason(reason) {
          var stale := reason in w.active && Stale(cfg, w.active[reason], now);
          if stale {
            CloseDetailed(cfg, w, reason, now, dropId, said);
            CloseStructured(cfg, w, reason, now, dropId);
            CloseKeeps(cfg, w, reason, now, dropId);
          }
          NoteDetailed(cfg, if stale then Close(cfg, w, reason, now, dropId) else w,
            reason, if affected <= 0 then 1 else affected, sample, detail, now, id, said);
        }
      case SnapshotOp(stale, ids, now) =>
        BatchReady(cfg, w, stale, ids, now);
        CloseAllDetailed(cfg, w, stale, ids, now, |stale|, said);
      case _ =>
    }
  }

  /** In every run an incident's detail is the cut of the detail last recorded for it. */
  lemma {:induction false} RunDetailed(cfg: Config, ws: seq<World>, ops: seq<Op>, i: nat)
    requires Run(cfg, ws, ops) && i < |ws|
    ensures Detailed(ws[i], Said(ws, ops, i))
  {
    if i > 0 {
      RunDetailed(cfg, ws, ops, i - 1);
      RunStructured(cfg, ws, ops, i - 1);
      assert StepAt(cfg, ws, ops, i - 1);
      ApplyDetailed(cfg, ws[i - 1], ops[i - 1], Said(ws, ops, i - 1));
    }
  }

  // ---- the exact condition ----

  /** What `NewTracker` makes of its arguments. */
  predicate Built(cfg: Config, component: string, instanceID: string) {
    && ValidComponent(component) && instanceID != ""
    && cfg.component == component && cfg.instanceID == Truncate(instanceID, MAX_IDENTITY)
  }

  /** The instance id, cut at 128 characters, fits 128 bytes. */
  predicate IdFits(instanceID: string) {
    ByteLength(Truncate(instanceID, MAX_IDENTITY)) <= MAX_IDENTITY
  }

  /** The detail, cut at 200 characters, fits 200 bytes. */
  predicate DetailFits(detail: string) {
    ByteLength(Truncate(detail, MAX_DETAIL)) <= MAX_DETAIL
  }

  predicate Tracked(w: World, incident: Incident) {
    incident in w.active.Values || incident in w.pending.Values
  }

  ghost predicate TimelyRun(cfg: Config, ws: seq<World>, ops: seq<Op>) {
    Run(cfg, ws, ops) && forall j :: 0 <= j < |ops| ==> Timely(ops[j], ClockAt(ops, j))
  }

  /** A tracked incident validates iff the tracker's instance id and the detail last recorded for the
      incident fit, both as they were passed in and cut. */
  lemma ReportsValidate(
    cfg: Config, component: string, instanceID: string, ws: seq<World>, ops: seq<Op>, i: nat, incident: Incident)
    requires Built(cfg, component, instanceID) && TimelyRun(cfg, ws, ops) && i < |ws|
    requires Tracked(ws[i], incident)
    ensures Validates(incident) <==> IdFits(instanceID) && DetailFits(LastDetail(Said(ws, ops, i), incident.key))
  {
    RunSound(cfg, ws, ops, i);
    RunDetailed(cfg, ws, ops, i);
    assert Sound(cfg, incident, ClockAt(ops, i));
    assert SaysLast(Said(ws, ops, i), incident);
  }

  /** The record reaches an incident: its reason is valid, and one is open and not stale or can be opened. */
  predicate Accepts(cfg: Config, w: World, op: Op) {
    && op.RecordOp? && ValidReason(op.reason)
    && (op.id.Some? || (op.reason in w.active && !Stale(cfg, w.active[op.reason], op.now)))
  }

  lemma AcceptedOpens(cfg: Config, w: World, op: Op)
    requires Legal(cfg, w, op) && op.RecordOp? && ValidReason(op.reason)
    ensures Accepts(cfg, w, op) <==> op.reason in Apply(cfg, w, op).active
  {
  }

  lemma {:induction false} SaidFrom(cfg: Config, ws: seq<World>, ops: seq<Op>, i: nat, k: string) returns (j: nat)
    requires Run(cfg, ws, ops) && i < |ws| && k in Said(ws, ops, i)
    ensures j < i && Accepts(cfg, ws[j], ops[j]) && ops[j].detail == Said(ws, ops, i)[k]
  {
    var op := ops[i - 1];
    assert StepAt(cfg, ws, ops, i - 1);
    if op.RecordOp? && ValidReason(op.reason) && op.reason in ws[i].active && ws[i].active[op.reason].key == k {
      AcceptedOpens(cfg, ws[i - 1], op);
      j := i - 1;
    } else {
      j := SaidFrom(cfg, ws, ops, i - 1, k);
    }
  }

  lemma {:induction false} NothingBefore(cfg: Config, ws: seq<World>, ops: seq<Op>, i: nat)
    requires Run(cfg, ws, ops) && i < |ws| && forall j :: 0 <= j < i ==> !Accepts(cfg, ws[j], ops[j])
    ensures ws[i].active == map[] && ws[i].pending == map[]
  {
    if i > 0 {
      NothingBefore(cfg, ws, ops, i - 1);
      assert StepAt(cfg, ws, ops, i - 1);
      assert !Accepts(cfg, ws[i - 1], ops[i - 1]);
      match ops[i - 1] {
        case SnapshotOp(stale, ids, now) => assert stale == [];
        case _ =>
      }
    }
  }

  lemma {:induction false} AsciiBytes(s: string, j: nat)
    requires j <= |s| && forall i :: 0 <= i < j ==> s[i] as int < 0x80
    ensures ByteLength(s, j) == j
  {
    if j > 0 { AsciiBytes(s, j - 1); }
  }

  predicate Ascii(s: string) {
    forall i :: 0 <= i < |s| ==> s[i] as int < 0x80
  }

  lemma AsciiFits(s: string)
    requires Ascii(s)
    ensures IdFits(s) && DetailFits(s)
  {
    var id, detail := Truncate(s, MAX_IDENTITY), Truncate(s, MAX_DETAIL);
    AsciiBytes(id, |id|);
    AsciiBytes(detail, |detail|);
  }

  /** Every report of a run validates iff each accepted record came with a detail that fits, to a
      tracker whose instance id fits; ASCII always does. */
  lemma AllReportsValidate(cfg: Config, component: string, instanceID: string, ws: seq<World>, ops: seq<Op>)
    requires Built(cfg, component, instanceID) && TimelyRun(cfg, ws, ops)
    ensures
      (forall i, incident :: 0 <= i < |ws| && Tracked(ws[i], incident) ==> Validates(incident)) <==>
      (forall j :: 0 <= j < |ops| && Accepts(cfg, ws[j], ops[j]) ==> IdFits(instanceID) && DetailFits(ops[j].detail))
  {
    if forall i, incident :: 0 <= i < |ws| && Tracked(ws[i], incident) ==> Validates(incident) {
      forall j | 0 <= j < |ops| && Accepts(cfg, ws[j], ops[j]) ensures IdFits(instanceID) && DetailFits(ops[j].detail) {
        var incident := AcceptedTracked(cfg, component, instanceID, ws, ops, j);
      }
    }
    if forall j :: 0 <= j < |ops| && Accepts(cfg, ws[j], ops[j]) ==> IdFits(instanceID) && DetailFits(ops[j].detail) {
      forall i, incident | 0 <= i < |ws| && Tracked(ws[i], incident) ensures Validates(incident) {
        FittingValidates(cfg, component, instanceID, ws, ops, i, incident);
      }
    }
  }

  /** With ASCII arguments every report validates. */
  lemma AsciiReportsValidate(cfg: Config, component: string, instanceID: string, ws: seq<World>, ops: seq<Op>, i: nat, incident: Incident)
    requires Built(cfg, component, instanceID) && TimelyRun(cfg, ws, ops) && i < |ws| && Tracked(ws[i], incident)
    requires Ascii(instanceID) && forall j :: 0 <= j < |ops| && ops[j].RecordOp? ==> Ascii(ops[j].detail)
    ensures Validates(incident)
  {
    AsciiFits(instanceID);
    forall j | 0 <= j < |ops| && Accepts(cfg, ws[j], ops[j]) ensures DetailFits(ops[j].detail) { AsciiFits(ops[j].detail); }
    FittingValidates(cfg, component, instanceID, ws, ops, i, incident);
  }

  lemma AcceptedTracked(cfg: Config, component: string, instanceID: string, ws: seq<World>, ops: seq<Op>, j: nat)
    returns (incident: Incident)
    requires Built(cfg, component, instanceID) && TimelyRun(cfg, ws, ops)
    requires j < |ops| && Accepts(cfg, ws[j], ops[j])
    ensures Tracked(ws[j + 1], incident)
    ensures Validates(incident) <==> IdFits(instanceID) && DetailFits(ops[j].detail)
  {
    assert StepAt(cfg, ws, ops, j);
    AcceptedOpens(cfg, ws[j], ops[j]);
    incident := ws[j + 1].active[ops[j].reason];
    ReportsValidate(cfg, component, instanceID, ws, ops, j + 1, incident);
  }

  lemma FittingValidates(
    cfg: Config, component: string, instanceID: string, ws: seq<World>, ops: seq<Op>, i: nat, incident: Incident)
    requires Built(cfg, component, instanceID) && TimelyRun(cfg, ws, ops) && i < |ws| && Tracked(ws[i], incident)
    requires forall j :: 0 <= j < |ops| && Accepts(cfg, ws[j], ops[j]) ==> IdFits(instanceID) && DetailFits(ops[j].detail)
    ensures Validates(incident)
  {
    ReportsValidate(cfg, component, instanceID, ws, ops, i, incident);
    if incident.key in Said(ws, ops, i) {
      var j := SaidFrom(cfg, ws, ops, i, incident.key);
    } else {
      AsciiFits(DROP_DETAIL);
      if forall j :: 0 <= j < i ==> !Accepts(cfg, ws[j], ops[j]) { NothingBefore(cfg, ws, ops, i); }
    }
  }

  lemma {:induction false} WideBytes(s: string, j: nat)
    requires j <= |s| && forall i :: 0 <= i < j ==> s[i] as int >= 0x80
    ensures ByteLength(s, j) >= 2 * j
  {
    if j > 0 { WideBytes(s, j - 1); }
  }

  predicate Wide(s: string) {
    forall i :: 0 <= i < |s| ==> s[i] as int >= 0x80
  }

  /** More than 64 two-byte characters of instance id, or more than 100 of detail, do not fit. */
  lemma WideDoesNotFit(s: string)
    requires Wide(s)
    ensures |s| > 64 ==> !IdFits(s)
    ensures |s| > 100 ==> !DetailFits(s)
  {
    var id, detail := Truncate(s, MAX_IDENTITY), Truncate(s, MAX_DETAIL);
    WideBytes(id, |id|);
    WideBytes(detail, |detail|);
  }

  /** One record whose report the receiver rejects: because of its detail, or, with any detail at all,
      because of the tracker's instance id. */
  lemma WideReportRejected(cfg: Config, component: string, instanceID: string, key: string, detail: string, now: int)
    returns (ops: seq<Op>, ws: seq<World>)
    requires Built(cfg, component, instanceID) && cfg.limit > 0 && Identity(key) && now > 0
    requires (Wide(detail) && |detail| > 100) || (Wide(instanceID) && |instanceID| > 64)
    ensures TimelyRun(cfg, ws, ops) && |ops| == 1 && ops[0].RecordOp? && ops[0].detail == detail
    ensures "queue_full" in ws[1].active && !Validates(ws[1].active["queue_full"])
  {
    var op := RecordOp("queue_full", 1, "", detail, now, None, Some(key));
    ops, ws := [op], [EMPTY, Apply(cfg, EMPTY, op)];
    assert StepAt(cfg, ws, ops, 0);
    if Wide(detail) && |detail| > 100 { WideDoesNotFit(detail); } else { WideDoesNotFit(instanceID); }
    assert ws[1].active["queue_full"].detail == Truncate(detail, MAX_DETAIL);
    assert ws[1].active["queue_full"].reporter == Truncate(instanceID, MAX_IDENTITY);
  }
}
