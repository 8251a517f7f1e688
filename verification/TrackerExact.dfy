/** What each operation of the tracker does do: which acknowledgements remove an incident, which records
    continue one, and which incidents a snapshot closes. */
module TrackerExact {
  import opened Names
  import opened Strings
  import opened Tracker
  import opened TrackerTheorems

  // ---- acknowledgements ----

  /** The same list without its entry at some position, which held the key. */
  ghost predicate WithoutKey(order: seq<string>, key: string, order': seq<string>) {
    exists p :: 0 <= p < |order| && order[p] == key && order' == order[..p] + order[p + 1..]
  }

  lemma {:induction false} FirstAt(order: seq<string>, key: string) returns (p: nat)
    requires key in order
    ensures p < |order| && order[p] == key && forall i :: 0 <= i < p ==> order[i] != key
  {
    if order[0] == key {
      p := 0;
    } else {
      p := FirstAt(order[1..], key);
      p := p + 1;
    }
  }

  lemma RemoveExact(order: seq<string>, key: string)
    requires key in order
    ensures WithoutKey(order, key, Remove(order, key))
  {
    var p := FirstAt(order, key);
    RemoveFirst(order, key, p);
  }

  /** A terminal ack at or above the revision of a closed incident takes that incident, and nothing
      else, out of the queue; every other ack changes nothing. */
  lemma AcknowledgeExact(cfg: Config, w: World, key: string, revision: nat, terminal: bool)
    requires Structured(cfg, w)
    ensures
      var w' := Acknowledge(w, key, revision, terminal);
      if terminal && key in w.pending && revision >= w.pending[key].revision then
        && w'.pending == w.pending - {key}
        && WithoutKey(w.order, key, w'.order)
        && w'.acknowledged == w.acknowledged + w.pending[key].affected
        && w' == w.(pending := w'.pending, order := w'.order, acknowledged := w'.acknowledged)
      else w' == w
  {
    if key in w.pending {
      ListsAll(w.order, w.pending.Keys, key);
      RemoveExact(w.order, key);
    }
  }

  /** The key has been handed out, and no tracked incident has it any more. */
  ghost predicate Departed(w: World, k: string) {
    k in w.used && k !in w.pending && forall r :: r in w.active ==> w.active[r].key != k
  }

  /** The step leaves the queued incident as it is or lets it depart, and brings no departed key back. */
  ghost predicate Freezes(w: World, w': World, k: string) {
    && (k in w.pending && k in w'.pending ==> w'.pending[k] == w.pending[k])
    && (k in w.pending && k !in w'.pending ==> Departed(w', k))
    && (Departed(w, k) ==> Departed(w', k))
  }

  lemma DropFreezes(cfg: Config, w: World, now: int, id: Option<string>, k: string)
    requires Unused(w, id)
    ensures RecordDrop(cfg, w, now, id).pending == w.pending && (Departed(w, k) ==> Departed(RecordDrop(cfg, w, now, id), k))
  {
  }

  lemma EvictFreezes(cfg: Config, w: World, reason: string, now: int, id: Option<string>, k: string)
    requires Structured(cfg, w) && Unused(w, id)
    ensures Freezes(w, Evict(cfg, w, reason, now, id), k)
  {
    if |w.pending| >= cfg.limit {
      PopStructured(cfg, w);
      DropFreezes(cfg, Popped(w), now, id, k);
    }
  }

  lemma PushFreezes(w: World, i: Incident, k: string)
    requires i.key !in w.pending && i.key in w.used
    ensures k != i.key ==> Freezes(w, w.(pending := w.pending[i.key := i], order := w.order + [i.key]), k)
  {
  }

  lemma CloseFreezes(cfg: Config, w: World, reason: string, now: int, id: Option<string>, k: string)
    requires Structured(cfg, w) && Unused(w, id) && reason in w.active
    ensures Freezes(w, Close(cfg, w, reason, now, id), k)
  {
    var i := Closed(w.active[reason]);
    var w1 := w.(active := w.active - {reason});
    RemoveActive(cfg, w, reason);
    EvictFreezes(cfg, w1, reason, now, id, k);
    EvictKeeps(cfg, w1, reason, now, id, i.key);
    PushFreezes(Evict(cfg, w1, reason, now, id), i, k);
  }

  lemma FreezesOn(w: World, w': World, w'': World, k: string)
    requires Freezes(w, w', k) && Freezes(w', w'', k)
    ensures Freezes(w, w'', k)
  {
  }

  /** A batch meets its incident at `j` in a structured state. */
  ghost predicate MeetsAt(cfg: Config, w: World, reasons: seq<string>, ids: seq<Option<string>>, now: int, j: nat)
    requires j < |reasons| <= |ids|
  {
    var w' := CloseAll(cfg, w, reasons, ids, now, j);
    Structured(cfg, w') && reasons[j] in w'.active && Unused(w', ids[j])
  }

  lemma BatchMeets(cfg: Config, w: World, reasons: seq<string>, ids: seq<Option<string>>, now: int, j: nat)
    requires Batch(cfg, w, reasons, ids) && j < |reasons|
    ensures MeetsAt(cfg, w, reasons, ids, now, j)
  {
    CloseAllStructured(cfg, w, reasons, ids, now, j);
  }

  lemma FreezeStep(cfg: Config, w: World, w': World, reason: string, now: int, id: Option<string>, k: string)
    requires Freezes(w, w', k) && Structured(cfg, w') && reason in w'.active && Unused(w', id)
    ensures Freezes(w, Close(cfg, w', reason, now, id), k)
  {
    CloseFreezes(cfg, w', reason, now, id, k);
    FreezesOn(w, w', Close(cfg, w', reason, now, id), k);
  }

  lemma {:induction false} CloseAllFreezes(
    cfg: Config, w: World, reasons: seq<string>, ids: seq<Option<string>>, now: int, j: nat, k: string)
    requires j <= |reasons| <= |ids| && forall i :: 0 <= i < |reasons| ==> MeetsAt(cfg, w, reasons, ids, now, i)
    ensures Freezes(w, CloseAll(cfg, w, reasons, ids, now, j), k)
  {
    if j > 0 {
      CloseAllFreezes(cfg, w, reasons, ids, now, j - 1, k);
      assert MeetsAt(cfg, w, reasons, ids, now, j - 1);
      FreezeStep(cfg, w, CloseAll(cfg, w, reasons, ids, now, j - 1), reasons[j - 1], now, ids[j - 1], k);
    }
  }

  lemma NoteFreezes(
    cfg: Config, w: World, reason: string, affected: int, sample: string, detail: string, now: int, id: Option<string>, k: string)
    requires Unused(w, id)
    ensures
      var w' := Note(cfg, w, reason, affected, sample, detail, now, id);
      w'.pending == w.pending && (Departed(w, k) ==> Departed(w', k))
  {
  }

  lemma RecordFreezes(cfg: Config, w: World, op: Op, k: string)
    requires Structured(cfg, w) && op.RecordOp? && Legal(cfg, w, op)
    ensures Freezes(w, Apply(cfg, w, op), k)
  {
    if ValidReason(op.reason) {
      var stale := op.reason in w.active && Stale(cfg, w.active[op.reason], op.now);
      if stale {
        CloseFreezes(cfg, w, op.reason, op.now, op.dropId, k);
        CloseKeeps(cfg, w, op.reason, op.now, op.dropId);
      }
      NoteFreezes(cfg, if stale then Close(cfg, w, op.reason, op.now, op.dropId) else w,
        op.reason, if op.affected <= 0 then 1 else op.affected, op.sample, op.detail, op.now, op.id, k);
    }
  }

  /** A closed incident does not change while it is queued, and does not come back once it has left. */
  lemma ApplyFreezes(cfg: Config, w: World, op: Op, k: string)
    requires Structured(cfg, w) && Legal(cfg, w, op)
    ensures Freezes(w, Apply(cfg, w, op), k)
  {
    match op {
      case RecordOp(_, _, _, _, _, _, _) => RecordFreezes(cfg, w, op, k);
      case SnapshotOp(stale, ids, now) =>
        forall i | 0 <= i < |stale| ensures MeetsAt(cfg, w, stale, ids, now, i) { BatchMeets(cfg, w, stale, ids, now, i); }
        CloseAllFreezes(cfg, w, stale, ids, now, |stale|, k);
      case AcknowledgeOp(_, _, _) =>
      case ResetOp =>
    }
  }

  lemma {:induction false} FrozenRun(cfg: Config, ws: seq<World>, ops: seq<Op>, i: nat, j: nat, k: string)
    requires Run(cfg, ws, ops) && i <= j < |ws| && k in ws[i].pending
    ensures if k in ws[j].pending then ws[j].pending[k] == ws[i].pending[k] else Departed(ws[j], k)
  {
    if i < j {
      FrozenRun(cfg, ws, ops, i, j - 1, k);
      RunStructured(cfg, ws, ops, j - 1);
      assert StepAt(cfg, ws, ops, j - 1);
      ApplyFreezes(cfg, ws[j - 1], ops[j - 1], k);
    }
  }

  /** Acking what a snapshot showed of a closed incident removes it, however much later the ack comes,
      if it is still queued. */
  lemma AckOfShownRemoves(cfg: Config, ws: seq<World>, ops: seq<Op>, i: nat, j: nat, k: string)
    requires Run(cfg, ws, ops) && i < j < |ws| && ops[i].SnapshotOp? && k in ws[i + 1].pending && k in ws[j].pending
    ensures
      var w' := Acknowledge(ws[j], k, ws[i + 1].pending[k].revision, true);
      w'.pending == ws[j].pending - {k} && WithoutKey(ws[j].order, k, w'.order)
  {
    FrozenRun(cfg, ws, ops, i + 1, j, k);
    RunStructured(cfg, ws, ops, j);
    AcknowledgeExact(cfg, ws[j], k, ws[i + 1].pending[k].revision, true);
  }

  /** Acking what a snapshot showed of an open incident changes nothing, however much later the ack comes. */
  lemma AckOfShownOpenIgnored(cfg: Config, ws: seq<World>, ops: seq<Op>, i: nat, j: nat, r: string, terminal: bool)
    requires Run(cfg, ws, ops) && i < j < |ws| && ops[i].SnapshotOp? && r in ws[i + 1].active
    ensures Acknowledge(ws[j], ws[i + 1].active[r].key, ws[i + 1].active[r].revision, terminal) == ws[j]
  {
    var k, n := ws[i + 1].active[r].key, ws[i + 1].active[r].revision;
    assert StepAt(cfg, ws, ops, i);
    assert (k, n) in ws[i + 1].openSeen;
    SeenStays(cfg, ws, ops, i + 1, j, k, n);
    AckOfOpenIgnored(cfg, ws, ops, j, k, n, terminal);
  }

  lemma {:induction false} SeenStays(cfg: Config, ws: seq<World>, ops: seq<Op>, i: nat, j: nat, k: string, n: nat)
    requires Run(cfg, ws, ops) && i <= j < |ws| && (k, n) in ws[i].openSeen
    ensures (k, n) in ws[j].openSeen
  {
    if i < j {
      SeenStays(cfg, ws, ops, i, j - 1, k, n);
      assert StepAt(cfg, ws, ops, j - 1);
      SeenKept(cfg, ws[j - 1], ops[j - 1], k, n);
    }
  }

  lemma SeenKept(cfg: Config, w: World, op: Op, k: string, n: nat)
    requires Legal(cfg, w, op) && (k, n) in w.openSeen
    ensures (k, n) in Apply(cfg, w, op).openSeen
  {
    if op.SnapshotOp? { CloseAllSeen(cfg, w, op.stale, op.ids, op.now, |op.stale|); }
  }

  // ---- records ----

  /** Samples stay distinct, trimmed, not blank and at most five; earlier ones are kept, and a new one is
      taken unless it is blank or there are five. */
  predicate Sampled(values: seq<string>, values': seq<string>, sample: string) {
    var v := TrimSpace(sample);
    && values <= values'
    && (|values| <= 5 ==> |values'| <= 5)
    && (forall x :: x in values' ==> x in values || (x == v && v != ""))
    && (v != "" && |values| < 5 ==> v in values')
    && |values'| <= |values| + (if v in values then 0 else 1)
  }

  lemma SamplesExact(values: seq<string>, sample: string)
    ensures Sampled(values, AppendSample(values, sample), sample)
  {
  }

  /** The incident as the record leaves it: one revision on, seen now, with the count added. */
  predicate Continues(i: Incident, i': Incident, affected: int, sample: string, detail: string, now: int) {
    && i'.key == i.key && i'.reporter == i.reporter && i'.component == i.component && i'.reason == i.reason
    && i'.revision == i.revision + 1 && i'.startedAt == i.startedAt && i'.lastSeenAt == now && i'.closed == i.closed
    && i'.affected == i.affected + (if affected > 0 then affected else 1)
    && i'.detail == (if |detail| <= 200 then detail else detail[..200])
    && Sampled(i.samples, i'.samples, sample)
  }

  predicate Begins(cfg: Config, i': Incident, key: string, reason: string, affected: int, sample: string, detail: string, now: int) {
    && i'.key == key && i'.reporter == cfg.instanceID && i'.component == cfg.component && i'.reason == reason
    && i'.revision == 1 && i'.startedAt == i'.lastSeenAt == now && !i'.closed
    && i'.affected == (if affected > 0 then affected else 1)
    && i'.detail == (if |detail| <= 200 then detail else detail[..200])
    && Sampled([], i'.samples, sample)
  }

  predicate KnownReason(reason: string) {
    || reason == "queue_full" || reason == "retry_exhausted" || reason == "ack_timeout" || reason == "auth_failure"
    || reason == "batch_failure" || reason == "write_failed" || reason == "report_dropped"
  }

  /** A record of a known reason continues the open incident exactly when the silence period has not
      passed since it was last seen; otherwise it begins a new one, if an identity can be drawn. One of
      an unknown reason changes nothing. */
  lemma RecordExact(cfg: Config, w: World, op: Op)
    requires op.RecordOp? && Legal(cfg, w, op)
    ensures
      var w', r := Apply(cfg, w, op), op.reason;
      if !KnownReason(r) then w' == w
      else if r in w.active && op.now - w.active[r].lastSeenAt <= cfg.silence then
        && r in w'.active && Continues(w.active[r], w'.active[r], op.affected, op.sample, op.detail, op.now)
        && w'.active - {r} == w.active - {r} && w'.pending == w.pending && w'.order == w.order
      else if op.id.Some? then r in w'.active && Begins(cfg, w'.active[r], op.id.value, r, op.affected, op.sample, op.detail, op.now)
      else r !in w'.active
  {
    var r := op.reason;
    if ValidReason(r) {
      var n := if op.affected <= 0 then 1 else op.affected;
      if r in w.active && Stale(cfg, w.active[r], op.now) {
        ClosedIsGone(cfg, w, r, op.now, op.dropId);
        NoteExact(cfg, Close(cfg, w, r, op.now, op.dropId), r, n, op.sample, op.detail, op.now, op.id);
      } else {
        NoteExact(cfg, w, r, n, op.sample, op.detail, op.now, op.id);
      }
    }
  }

  lemma ClosedIsGone(cfg: Config, w: World, reason: string, now: int, id: Option<string>)
    requires reason in w.active
    ensures reason !in Close(cfg, w, reason, now, id).active
  {
  }

  lemma NoteExact(cfg: Config, w: World, r: string, n: int, sample: string, detail: string, now: int, id: Option<string>)
    requires n > 0
    ensures
      var w' := Note(cfg, w, r, n, sample, detail, now, id);
      && (r in w.active ==>
            && r in w'.active && Continues(w.active[r], w'.active[r], n, sample, detail, now)
            && w'.active - {r} == w.active - {r} && w'.pending == w.pending && w'.order == w.order)
      && (r !in w.active && id.Some? ==> r in w'.active && Begins(cfg, w'.active[r], id.value, r, n, sample, detail, now))
      && (r !in w.active && id.None? ==> w' == w)
  {
    var w' := Note(cfg, w, r, n, sample, detail, now, id);
    SamplesExact(if r in w.active then w.active[r].samples else [], sample);
    if r in w.active { assert w'.active - {r} == w.active - {r}; }
  }

  // ---- closing ----

  /** The incident as it was, closed and one revision on. */
  predicate ClosedForm(i: Incident, i': Incident) {
    && i'.closed && i'.revision == i.revision + 1
    && i' == i.(closed := true, revision := i'.revision)
  }

  /** A close queues the incident last, in its closed form, and leaves every other open incident but the
      self-report as it is. */
  lemma CloseExact(cfg: Config, w: World, reason: string, now: int, id: Option<string>)
    requires reason in w.active
    ensures
      var w', k := Close(cfg, w, reason, now, id), w.active[reason].key;
      && reason !in w'.active
      && k in w'.pending && ClosedForm(w.active[reason], w'.pending[k])
      && w'.order != [] && w'.order[|w'.order| - 1] == k
      && forall r :: r != "report_dropped" && r != reason ==> (r in w'.active <==> r in w.active) && (r in w.active ==> w'.active[r] == w.active[r])
  {
  }

  /** The open self-report, if there is one. */
  function SelfReport(active: map<string, Incident>): Option<Incident> {
    if "report_dropped" in active then Some(active["report_dropped"]) else None
  }

  /** One more of the open self-report, or a first one. */
  predicate ReportsItself(cfg: Config, was: Option<Incident>, i': Incident, now: int, id: Option<string>) {
    if was.Some? then
      i' == was.value.(revision := was.value.revision + 1, lastSeenAt := now, affected := was.value.affected + 1)
    else id.Some? && Begins(cfg, i', id.value, "report_dropped", 1, "", "pending incident queue reached capacity", now)
  }

  lemma DropExact(cfg: Config, w: World, now: int, id: Option<string>)
    ensures
      var was, after := SelfReport(w.active), SelfReport(RecordDrop(cfg, w, now, id).active);
      if was.Some? || id.Some? then after.Some? && ReportsItself(cfg, was, after.value, now, id) else after == was
  {
  }

  lemma EvictExact(cfg: Config, w: World, reason: string, now: int, id: Option<string>)
    requires Structured(cfg, w) && reason != "report_dropped"
    ensures |w.pending| == cfg.limit ==> w.order != [] && w.order[0] in w.pending
    ensures
      var was, after := SelfReport(w.active), SelfReport(Evict(cfg, w, reason, now, id).active);
      if |w.pending| == cfg.limit && w.pending[w.order[0]].reason != "report_dropped" && (was.Some? || id.Some?) then
        after.Some? && ReportsItself(cfg, was, after.value, now, id)
      else after == was
  {
    if |w.pending| == cfg.limit {
      PopStructured(cfg, w);
      DropExact(cfg, Popped(w), now, id);
    }
  }

  /** A close that evicts an incident reports that of itself, unless the incident lost was a self-report
      or no identity can be drawn; a close that evicts nothing leaves the self-report as it is. */
  lemma SelfReportExact(cfg: Config, w: World, reason: string, now: int, id: Option<string>)
    requires Structured(cfg, w) && reason in w.active && reason != "report_dropped"
    ensures |w.pending| == cfg.limit ==> w.order != [] && w.order[0] in w.pending
    ensures
      var was, after := SelfReport(w.active), SelfReport(Close(cfg, w, reason, now, id).active);
      if |w.pending| == cfg.limit && w.pending[w.order[0]].reason != "report_dropped" && (was.Some? || id.Some?) then
        after.Some? && ReportsItself(cfg, was, after.value, now, id)
      else after == was
  {
    RemoveActive(cfg, w, reason);
    EvictExact(cfg, w.(active := w.active - {reason}), reason, now, id);
  }

  /** The open incident of `w` has been closed, or is open as it was. */
  predicate Remains(w: World, w': World, r: string, closed: bool) {
    r in w.active && if closed then r !in w'.active else r in w'.active && w'.active[r] == w.active[r]
  }

  lemma RemainsStep(cfg: Config, w: World, w': World, reason: string, now: int, id: Option<string>, r: string, closed: bool)
    requires r != "report_dropped" && Remains(w, w', r, closed)
    ensures Remains(w, if reason in w'.active then Close(cfg, w', reason, now, id) else w', r, closed || r == reason)
  {
    if reason in w'.active { CloseExact(cfg, w', reason, now, id); }
  }

  /** The open incident of a reason other than the self-report, after the first `j` closes. */
  lemma {:induction false} CloseAllActive(
    cfg: Config, w: World, reasons: seq<string>, ids: seq<Option<string>>, now: int, j: nat, r: string)
    requires j <= |reasons| <= |ids| && r != "report_dropped" && r in w.active && NoRepeats(reasons)
    ensures
      Remains(w, CloseAll(cfg, w, reasons, ids, now, j), r, r in reasons[..j])
  {
    if j > 0 {
      CloseAllActive(cfg, w, reasons, ids, now, j - 1, r);
      assert reasons[..j] == reasons[..j - 1] + [reasons[j - 1]];
      RemainsStep(cfg, w, CloseAll(cfg, w, reasons, ids, now, j - 1), reasons[j - 1], now, ids[j - 1], r, r in reasons[..j - 1]);
    }
  }

  /** After its close an incident is queued in its closed form, or has been evicted. */
  ghost predicate ClosedOrGone(w': World, i: Incident) {
    if i.key in w'.pending then ClosedForm(i, w'.pending[i.key]) else Departed(w', i.key)
  }

  lemma ClosedLater(w: World, w': World, i: Incident)
    requires ClosedOrGone(w, i) && Freezes(w, w', i.key)
    ensures ClosedOrGone(w', i)
  {
  }

  lemma {:induction false} CloseAllQueues(
    cfg: Config, w: World, reasons: seq<string>, ids: seq<Option<string>>, now: int, j: nat, p: nat)
    requires p < j <= |reasons| <= |ids| && NoRepeats(reasons) && reasons[p] in w.active && reasons[p] != "report_dropped"
    requires forall i :: 0 <= i < |reasons| ==> MeetsAt(cfg, w, reasons, ids, now, i)
    ensures ClosedOrGone(CloseAll(cfg, w, reasons, ids, now, j), w.active[reasons[p]])
  {
    var w', r := CloseAll(cfg, w, reasons, ids, now, j - 1), reasons[j - 1];
    assert MeetsAt(cfg, w, reasons, ids, now, j - 1);
    CloseExact(cfg, w', r, now, ids[j - 1]);
    if p == j - 1 {
      NotYet(reasons, p);
      CloseAllActive(cfg, w, reasons, ids, now, p, r);
    } else {
      CloseAllQueues(cfg, w, reasons, ids, now, j - 1, p);
      CloseFreezes(cfg, w', r, now, ids[j - 1], w.active[reasons[p]].key);
      ClosedLater(w', Close(cfg, w', r, now, ids[j - 1]), w.active[reasons[p]]);
    }
  }

  lemma NotYet(reasons: seq<string>, p: nat)
    requires NoRepeats(reasons) && p < |reasons|
    ensures reasons[p] !in reasons[..p]
  {
  }

  /** A snapshot leaves open exactly the incidents seen within the silence period, as they are, and
      queues the closed form of every other one, unless the queue has since evicted it. (The self-report
      can be continued or begun anew while others are closed.) */
  lemma SnapshotExact(cfg: Config, w: World, op: Op, r: string)
    requires Structured(cfg, w) && op.SnapshotOp? && Legal(cfg, w, op) && r in w.active && r != "report_dropped"
    ensures
      var w' := Apply(cfg, w, op);
      if op.now - w.active[r].lastSeenAt <= cfg.silence then r in w'.active && w'.active[r] == w.active[r]
      else r !in w'.active && ClosedOrGone(w', w.active[r])
  {
    var stale, ids, now := op.stale, op.ids, op.now;
    CloseAllActive(cfg, w, stale, ids, now, |stale|, r);
    assert stale[..|stale|] == stale;
    if r in stale {
      var p :| 0 <= p < |stale| && stale[p] == r;
      forall i | 0 <= i < |stale| ensures MeetsAt(cfg, w, stale, ids, now, i) { BatchMeets(cfg, w, stale, ids, now, i); }
      CloseAllQueues(cfg, w, stale, ids, now, |stale|, p);
    }
  }
}
