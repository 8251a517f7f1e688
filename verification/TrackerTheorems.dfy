/** What the incident tracker never loses, never removes too early, and always lets through. */
module TrackerTheorems {
  import opened Names
  import opened Tracker

  // ---- conservation ----

  lemma {:induction false} TotalRemove(m: map<string, Incident>, k: string)
    requires k in m
    ensures Total(m) == m[k].affected + Total(m - {k})
    decreases |m|
  {
    var x := AnyOf(m.Keys);
    if x != k {
      RemoveSize(m, x);
      TotalRemove(m - {x}, k);
      RemoveSize(m, k);
      TotalRemove(m - {k}, x);
      assert m - {x} - {k} == m - {k} - {x};
    }
  }

  lemma TotalPut(m: map<string, Incident>, k: string, i: Incident)
    ensures Total(m[k := i]) == i.affected + Total(m) - if k in m then m[k].affected else 0
  {
    TotalRemove(m[k := i], k);
    if k in m {
      TotalRemove(m, k);
      assert m[k := i] - {k} == m - {k};
    } else {
      assert m[k := i] - {k} == m;
    }
  }

  /** What went in and is not accounted for. */
  ghost function Missing(w: World): int {
    w.recorded + w.drops - Total(w.active) - Total(w.pending) - w.acknowledged - w.evicted - w.reset
  }

  lemma DropConserves(cfg: Config, w: World, now: int, id: Option<string>)
    ensures Missing(RecordDrop(cfg, w, now, id)) == Missing(w)
  {
    if DROPPED in w.active || id.Some? {
      TotalPut(w.active, DROPPED, RecordDrop(cfg, w, now, id).active[DROPPED]);
    }
  }

  lemma EvictConserves(cfg: Config, w: World, reason: string, now: int, id: Option<string>)
    ensures Missing(Evict(cfg, w, reason, now, id)) == Missing(w)
  {
    if w.order != [] && w.order[0] in w.pending {
      TotalRemove(w.pending, w.order[0]);
      DropConserves(cfg, Popped(w), now, id);
    }
  }

  lemma CloseConserves(cfg: Config, w: World, reason: string, now: int, id: Option<string>)
    requires reason in w.active && w.active[reason].key !in w.pending
    ensures Missing(Close(cfg, w, reason, now, id)) == Missing(w)
  {
    var i := Closed(w.active[reason]);
    var w1 := w.(active := w.active - {reason});
    TotalRemove(w.active, reason);
    EvictConserves(cfg, w1, reason, now, id);
    assert i.key !in Evict(cfg, w1, reason, now, id).pending;
    TotalPut(Evict(cfg, w1, reason, now, id).pending, i.key, i);
  }

  lemma NoteConserves(cfg: Config, w: World, reason: string, affected: int, sample: string, detail: string, now: int, id: Option<string>)
    ensures Missing(Note(cfg, w, reason, affected, sample, detail, now, id)) == Missing(w)
  {
    if reason in w.active || id.Some? {
      TotalPut(w.active, reason, Note(cfg, w, reason, affected, sample, detail, now, id).active[reason]);
    }
  }

  /** A batch of distinct open reasons, with an unused identity for each. */
  ghost predicate Batch(cfg: Config, w: World, reasons: seq<string>, ids: seq<Option<string>>) {
    && Structured(cfg, w) && |reasons| <= |ids| && AllUnused(w, ids)
    && NoRepeats(reasons) && forall i :: 0 <= i < |reasons| ==> reasons[i] in w.active
  }

  /** The next incident of a batch is there to close, under a key the queue does not hold. */
  ghost predicate Ready(cfg: Config, w: World, reason: string) {
    && reason in w.active && w.active[reason].key !in w.pending
    && |w.order| == |w.pending| <= cfg.limit && 0 < cfg.limit
    && (w.order != [] ==> w.order[0] in w.pending)
  }

  ghost predicate ReadyAt(cfg: Config, w: World, reasons: seq<string>, ids: seq<Option<string>>, now: int, j: nat)
    requires j < |reasons| <= |ids|
  {
    var w' := CloseAll(cfg, w, reasons, ids, now, j);
    Ready(cfg, w', reasons[j]) && Unused(w', ids[j])
  }

  ghost predicate ReadyAll(cfg: Config, w: World, reasons: seq<string>, ids: seq<Option<string>>, now: int) {
    |reasons| <= |ids| && forall j :: 0 <= j < |reasons| ==> ReadyAt(cfg, w, reasons, ids, now, j)
  }

  lemma BatchReady(cfg: Config, w: World, reasons: seq<string>, ids: seq<Option<string>>, now: int)
    requires Batch(cfg, w, reasons, ids)
    ensures ReadyAll(cfg, w, reasons, ids, now)
  {
    forall j | 0 <= j < |reasons| ensures ReadyAt(cfg, w, reasons, ids, now, j) {
      CloseAllStructured(cfg, w, reasons, ids, now, j);
    }
  }

  lemma CloseAllNext(cfg: Config, w: World, reasons: seq<string>, ids: seq<Option<string>>, now: int, j: nat)
    requires ReadyAll(cfg, w, reasons, ids, now) && j < |reasons|
    ensures
      var w' := CloseAll(cfg, w, reasons, ids, now, j);
      && Ready(cfg, w', reasons[j]) && Unused(w', ids[j])
      && CloseAll(cfg, w, reasons, ids, now, j + 1) == Close(cfg, w', reasons[j], now, ids[j])
  {
    assert ReadyAt(cfg, w, reasons, ids, now, j);
  }

  lemma {:induction false} CloseAllConserves(
    cfg: Config, w: World, reasons: seq<string>, ids: seq<Option<string>>, now: int, j: nat)
    requires ReadyAll(cfg, w, reasons, ids, now) && j <= |reasons|
    ensures Missing(CloseAll(cfg, w, reasons, ids, now, j)) == Missing(w)
  {
    if j > 0 {
      CloseAllConserves(cfg, w, reasons, ids, now, j - 1);
      var w' := CloseAll(cfg, w, reasons, ids, now, j - 1);
      assert ReadyAt(cfg, w, reasons, ids, now, j - 1);
      CloseConserves(cfg, w', reasons[j - 1], now, ids[j - 1]);
    }
  }

  lemma ApplyConserves(cfg: Config, w: World, op: Op)
    requires Structured(cfg, w) && Legal(cfg, w, op)
    ensures Missing(Apply(cfg, w, op)) == Missing(w)
  {
    match op {
      case RecordOp(reason, affected, sample, detail, now, dropId, id) =>
        if ValidReason(reason) {
          var stale := reason in w.active && Stale(cfg, w.active[reason], now);
          if stale { CloseConserves(cfg, w, reason, now, dropId); }
          NoteConserves(cfg, if stale then Close(cfg, w, reason, now, dropId) else w,
            reason, if affected <= 0 then 1 else affected, sample, detail, now, id);
        }
      case SnapshotOp(stale, ids, now) =>
        BatchReady(cfg, w, stale, ids, now);
        CloseAllConserves(cfg, w, stale, ids, now, |stale|);
      case AcknowledgeOp(key, revision, terminal) =>
        if key in w.pending { TotalRemove(w.pending, key); }
      case ResetOp =>
    }
  }

  /** Everything recorded, and every self-reported drop, is open, pending, acknowledged, evicted or reset. */
  lemma {:induction false} Conservation(cfg: Config, ws: seq<World>, ops: seq<Op>, i: nat)
    requires Run(cfg, ws, ops) && i < |ws|
    ensures ws[i].recorded + ws[i].drops ==
            Total(ws[i].active) + Total(ws[i].pending) + ws[i].acknowledged + ws[i].evicted + ws[i].reset
  {
    if i > 0 {
      Conservation(cfg, ws, ops, i - 1);
      RunStructured(cfg, ws, ops, i - 1);
      assert StepAt(cfg, ws, ops, i - 1);
      ApplyConserves(cfg, ws[i - 1], ops[i - 1]);
    }
  }

  /** A full queue makes a close evict; the eviction is self-reported unless it or the closing
      incident is itself a self-report, or no identity could be drawn for a new one. */
  lemma DropReported(cfg: Config, w: World, reason: string, now: int, id: Option<string>)
    requires Structured(cfg, w) && reason in w.active
    ensures
      var w' := Close(cfg, w, reason, now, id);
      var full := |w.pending| == cfg.limit;
      && (full ==> w.order != [] && w.order[0] in w.pending)
      && (!full ==> w'.drops == w.drops && w'.evicted == w.evicted)
      && (full ==> w'.evicted == w.evicted + w.pending[w.order[0]].affected)
      && (full ==> (w'.drops == w.drops + 1 <==>
            && w.pending[w.order[0]].reason != DROPPED && reason != DROPPED
            && (DROPPED in w.active || id.Some?)))
      && w'.drops <= w.drops + 1
  {
    if |w.pending| == cfg.limit {
      var w1 := w.(active := w.active - {reason});
      PopStructured(cfg, w1);
    }
  }

  // ---- the queue is first in, first out ----

  lemma CloseFifo(cfg: Config, w: World, reason: string, now: int, id: Option<string>)
    requires reason in w.active && |w.order| == |w.pending| <= cfg.limit && 0 < cfg.limit
    requires w.order != [] ==> w.order[0] in w.pending
    ensures
      var n := if |w.pending| == cfg.limit then 1 else 0;
      n <= |w.order| && Close(cfg, w, reason, now, id).order == w.order[n..] + [w.active[reason].key]
  {
  }

  lemma CloseKeepsKeys(cfg: Config, w: World, reason: string, now: int, id: Option<string>, r: string)
    requires reason in w.active && r in w.active && r != reason
    ensures r in Close(cfg, w, reason, now, id).active
    ensures Close(cfg, w, reason, now, id).active[r].key == w.active[r].key
  {
  }

  lemma {:induction false} CloseAllKeepsKeys(
    cfg: Config, w: World, reasons: seq<string>, ids: seq<Option<string>>, now: int, j: nat, r: string)
    requires j <= |reasons| <= |ids| && r in w.active && forall i :: 0 <= i < j ==> reasons[i] != r
    ensures r in CloseAll(cfg, w, reasons, ids, now, j).active
    ensures CloseAll(cfg, w, reasons, ids, now, j).active[r].key == w.active[r].key
  {
    if j > 0 {
      CloseAllKeepsKeys(cfg, w, reasons, ids, now, j - 1, r);
      var w' := CloseAll(cfg, w, reasons, ids, now, j - 1);
      if reasons[j - 1] in w'.active { CloseKeepsKeys(cfg, w', reasons[j - 1], now, ids[j - 1], r); }
    }
  }

  /** The key of the incident closed at step `j`. */
  ghost function KeyAt(cfg: Config, w: World, reasons: seq<string>, ids: seq<Option<string>>, now: int, j: nat): string
    requires j < |reasons| <= |ids| && ReadyAt(cfg, w, reasons, ids, now, j)
  {
    CloseAll(cfg, w, reasons, ids, now, j).active[reasons[j]].key
  }

  /** The keys of the incidents closed so far, in that order. */
  ghost predicate ClosedKeys(
    cfg: Config, w: World, reasons: seq<string>, ids: seq<Option<string>>, now: int, closed: seq<string>)
    requires |closed| <= |reasons| <= |ids|
  {
    forall i :: 0 <= i < |closed| ==> KeyIs(cfg, w, reasons, ids, now, i, closed[i])
  }

  ghost predicate KeyIs(cfg: Config, w: World, reasons: seq<string>, ids: seq<Option<string>>, now: int, i: nat, key: string)
    requires i < |reasons| <= |ids|
  {
    ReadyAt(cfg, w, reasons, ids, now, i) && key == KeyAt(cfg, w, reasons, ids, now, i)
  }

  lemma ClosedKeysStep(
    cfg: Config, w: World, reasons: seq<string>, ids: seq<Option<string>>, now: int, closed: seq<string>, key: string)
    requires |closed| < |reasons| <= |ids| && ClosedKeys(cfg, w, reasons, ids, now, closed)
    requires KeyIs(cfg, w, reasons, ids, now, |closed|, key)
    ensures ClosedKeys(cfg, w, reasons, ids, now, closed + [key])
  {
  }

  /** However the stale incidents are visited, the queue afterwards is what was queued followed by
      what was closed, less a number of the oldest. */
  lemma {:induction false} CloseAllFifo(
    cfg: Config, w: World, reasons: seq<string>, ids: seq<Option<string>>, now: int, j: nat) returns (closed: seq<string>, n: nat)
    requires ReadyAll(cfg, w, reasons, ids, now) && j <= |reasons|
    ensures |closed| == j && n <= |w.order| + j
    ensures ClosedKeys(cfg, w, reasons, ids, now, closed)
    ensures CloseAll(cfg, w, reasons, ids, now, j).order == (w.order + closed)[n..]
  {
    closed, n := [], 0;
    if j > 0 {
      closed, n := CloseAllFifo(cfg, w, reasons, ids, now, j - 1);
      assert ReadyAt(cfg, w, reasons, ids, now, j - 1);
      var key := KeyAt(cfg, w, reasons, ids, now, j - 1);
      ClosedKeysStep(cfg, w, reasons, ids, now, closed, key);
      n := FifoStep(cfg, w, CloseAll(cfg, w, reasons, ids, now, j - 1), closed, n, reasons[j - 1], now, ids[j - 1]);
      CloseAllNext(cfg, w, reasons, ids, now, j - 1);
      closed := closed + [key];
    }
  }

  lemma FifoStep(cfg: Config, w: World, w': World, closed: seq<string>, n: nat, r: string, now: int, id: Option<string>)
    returns (n': nat)
    requires Ready(cfg, w', r)
    requires n <= |w.order| + |closed| && w'.order == (w.order + closed)[n..]
    ensures n' <= |w.order| + |closed| + 1
    ensures Close(cfg, w', r, now, id).order == (w.order + (closed + [w'.active[r].key]))[n'..]
  {
    CloseFifo(cfg, w', r, now, id);
    var m := if |w'.pending| == cfg.limit then 1 else 0;
    DropPush(w.order, closed, w'.active[r].key, n, m);
    n' := n + m;
  }

  lemma DropPush(order: seq<string>, closed: seq<string>, key: string, n: nat, m: nat)
    requires n + m <= |order| + |closed|
    ensures (order + closed)[n..][m..] + [key] == (order + (closed + [key]))[n + m..]
  {
    var before := order + closed;
    assert order + (closed + [key]) == before + [key];
    assert before[n..][m..] == before[n + m..];
  }

  /** Everything queued at or before `k` is gone from `pending`. */
  ghost predicate GoneUpTo(order: seq<string>, pending: map<string, Incident>, k: string) {
    exists j :: 0 <= j < |order| && order[j] == k && forall i :: 0 <= i <= j ==> order[i] !in pending
  }

  /** A closed incident leaves the queue only by a terminal ack at or above its final revision, by
      Reset, or by eviction when everything queued before it has gone too. */
  lemma LeavesPending(cfg: Config, w: World, op: Op, k: string)
    requires Structured(cfg, w) && Legal(cfg, w, op)
    requires k in w.pending && k !in Apply(cfg, w, op).pending
    ensures match op
      case AcknowledgeOp(key, revision, terminal) => key == k && terminal && revision >= w.pending[k].revision
      case ResetOp => true
      case _ => GoneUpTo(w.order, Apply(cfg, w, op).pending, k)
  {
    ApplyStructured(cfg, w, op);
    match op {
      case AcknowledgeOp(_, _, _) =>
      case ResetOp =>
      case SnapshotOp(stale, ids, now) =>
        LeavesOnSnapshot(cfg, w, stale, ids, now, k);
      case RecordOp(reason, affected, sample, detail, now, dropId, id) =>
        LeavesOnRecord(cfg, w, op, k);
    }
  }

  lemma LeavesOnSnapshot(cfg: Config, w: World, stale: seq<string>, ids: seq<Option<string>>, now: int, k: string)
    requires Batch(cfg, w, stale, ids)
    requires var w' := Snapshot(cfg, w, stale, ids, now); Lists(w'.order, w'.pending.Keys) && k !in w'.pending
    requires k in w.pending
    ensures GoneUpTo(w.order, Snapshot(cfg, w, stale, ids, now).pending, k)
  {
    BatchReady(cfg, w, stale, ids, now);
    var closed, n := CloseAllFifo(cfg, w, stale, ids, now, |stale|);
    forall i | 0 <= i < |closed| ensures closed[i] !in w.pending {
      assert KeyIs(cfg, w, stale, ids, now, i, closed[i]);
      CloseAllKeepsKeys(cfg, w, stale, ids, now, i, stale[i]);
    }
    EvictedInOrder(w, Snapshot(cfg, w, stale, ids, now), closed, n, k);
  }

  lemma LeavesOnRecord(cfg: Config, w: World, op: Op, k: string)
    requires Structured(cfg, w) && op.RecordOp? && Legal(cfg, w, op) && Structured(cfg, Apply(cfg, w, op))
    requires k in w.pending && k !in Apply(cfg, w, op).pending
    ensures GoneUpTo(w.order, Apply(cfg, w, op).pending, k)
  {
    var key := w.active[op.reason].key;
    CloseFifo(cfg, w, op.reason, op.now, op.dropId);
    var n := if |w.pending| == cfg.limit then 1 else 0;
    DropPush(w.order, [], key, n, 0);
    assert w.order + [] == w.order && [] + [key] == [key];
    EvictedInOrder(w, Apply(cfg, w, op), [key], n, k);
  }

  lemma EvictedInOrder(w: World, w': World, closed: seq<string>, n: nat, k: string)
    requires Lists(w.order, w.pending.Keys) && Lists(w'.order, w'.pending.Keys)
    requires n <= |w.order| + |closed| && w'.order == (w.order + closed)[n..]
    requires forall i :: 0 <= i < |closed| ==> closed[i] !in w.pending
    requires k in w.pending && k !in w'.pending
    ensures GoneUpTo(w.order, w'.pending, k)
  {
    ListsAll(w.order, w.pending.Keys, k);
    var j :| 0 <= j < |w.order| && w.order[j] == k;
    assert j < n by { StillQueued(w, w', closed, n, j); }
    forall i | 0 <= i <= j ensures w.order[i] !in w'.pending {
      if w.order[i] in w'.pending {
        ListsAll(w'.order, w'.pending.Keys, w.order[i]);
        NotBefore(w, w', closed, n, i);
        assert false;
      }
    }
  }

  lemma StillQueued(w: World, w': World, closed: seq<string>, n: nat, j: nat)
    requires Lists(w'.order, w'.pending.Keys)
    requires n <= |w.order| + |closed| && w'.order == (w.order + closed)[n..]
    requires j < |w.order|
    ensures j >= n ==> w.order[j] in w'.pending
  {
    if j >= n { assert w'.order[j - n] == w.order[j]; }
  }

  lemma NotBefore(w: World, w': World, closed: seq<string>, n: nat, i: nat)
    requires Lists(w.order, w.pending.Keys)
    requires n <= |w.order| + |closed| && w'.order == (w.order + closed)[n..]
    requires forall i :: 0 <= i < |closed| ==> closed[i] !in w.pending
    requires i < |w.order| && i < n
    ensures w.order[i] !in w'.order
  {
    forall p | 0 <= p < |w'.order| ensures w'.order[p] != w.order[i] {
      assert w'.order[p] == (w.order + closed)[p + n];
    }
  }

  // ---- acknowledgements ----

  /** Revision `r` of incident `k`, shown while it was open, is behind its closed form for good. */
  ghost predicate Outdated(w: World, k: string, r: nat) {
    && k in w.used
    && (k in w.pending ==> w.pending[k].revision > r)
    && (forall q :: q in w.active && w.active[q].key == k ==> w.active[q].revision >= r)
  }

  lemma DropOutdates(cfg: Config, w: World, now: int, id: Option<string>, k: string, r: nat)
    requires Outdated(w, k, r) && Unused(w, id)
    ensures Outdated(RecordDrop(cfg, w, now, id), k, r)
  {
  }

  lemma EvictOutdates(cfg: Config, w: World, reason: string, now: int, id: Option<string>, k: string, r: nat)
    requires Outdated(w, k, r) && Unused(w, id)
    ensures Outdated(Evict(cfg, w, reason, now, id), k, r)
  {
    if w.order != [] && w.order[0] in w.pending {
      DropOutdates(cfg, Popped(w), now, id, k, r);
    }
  }

  lemma CloseOutdates(cfg: Config, w: World, reason: string, now: int, id: Option<string>, k: string, r: nat)
    requires Outdated(w, k, r) && Unused(w, id) && reason in w.active
    ensures Outdated(Close(cfg, w, reason, now, id), k, r)
  {
    EvictOutdates(cfg, w.(active := w.active - {reason}), reason, now, id, k, r);
  }

  lemma NoteOutdates(
    cfg: Config, w: World, reason: string, affected: int, sample: string, detail: string, now: int, id: Option<string>, k: string, r: nat)
    requires Outdated(w, k, r) && Unused(w, id)
    ensures Outdated(Note(cfg, w, reason, affected, sample, detail, now, id), k, r)
  {
  }

  lemma {:induction false} CloseAllOutdates(
    cfg: Config, w: World, reasons: seq<string>, ids: seq<Option<string>>, now: int, j: nat, k: string, r: nat)
    requires ReadyAll(cfg, w, reasons, ids, now) && j <= |reasons| && Outdated(w, k, r)
    ensures Outdated(CloseAll(cfg, w, reasons, ids, now, j), k, r)
  {
    if j > 0 {
      CloseAllOutdates(cfg, w, reasons, ids, now, j - 1, k, r);
      assert ReadyAt(cfg, w, reasons, ids, now, j - 1);
      CloseOutdates(cfg, CloseAll(cfg, w, reasons, ids, now, j - 1), reasons[j - 1], now, ids[j - 1], k, r);
    }
  }

  lemma ApplyOutdates(cfg: Config, w: World, op: Op, k: string, r: nat)
    requires Structured(cfg, w) && Legal(cfg, w, op) && Outdated(w, k, r)
    ensures Outdated(Apply(cfg, w, op), k, r)
  {
    match op {
      case RecordOp(reason, affected, sample, detail, now, dropId, id) =>
        if ValidReason(reason) {
          var stale := reason in w.active && Stale(cfg, w.active[reason], now);
          if stale {
            CloseOutdates(cfg, w, reason, now, dropId, k, r);
            CloseKeeps(cfg, w, reason, now, dropId);
          }
          NoteOutdates(cfg, if stale then Close(cfg, w, reason, now, dropId) else w,
            reason, if affected <= 0 then 1 else affected, sample, detail, now, id, k, r);
        }
      case SnapshotOp(stale, ids, now) =>
        BatchReady(cfg, w, stale, ids, now);
        CloseAllOutdates(cfg, w, stale, ids, now, |stale|, k, r);
      case AcknowledgeOp(_, _, _) =>
      case ResetOp =>
    }
  }

  lemma ShownOutdated(cfg: Config, w: World, k: string, r: nat)
    requires Structured(cfg, w) && (k, r) in Shown(w).openSeen && (k, r) !in w.openSeen
    ensures Outdated(w, k, r)
  {
    var q :| q in w.active && w.active[q].key == k && w.active[q].revision == r;
    forall p | p in w.active && w.active[p].key == k ensures p == q {}
  }

  lemma {:induction false} SeenOutdated(cfg: Config, ws: seq<World>, ops: seq<Op>, i: nat, k: string, r: nat)
    requires Run(cfg, ws, ops) && i < |ws| && (k, r) in ws[i].openSeen
    ensures Outdated(ws[i], k, r)
  {
    if i > 0 {
      var w, op := ws[i - 1], ops[i - 1];
      assert StepAt(cfg, ws, ops, i - 1);
      RunStructured(cfg, ws, ops, i - 1);
      if (k, r) in w.openSeen {
        SeenOutdated(cfg, ws, ops, i - 1, k, r);
        ApplyOutdates(cfg, w, op, k, r);
      } else {
        SeenOnlyShown(cfg, w, op, k, r);
      }
    }
  }

  lemma SeenOnlyShown(cfg: Config, w: World, op: Op, k: string, r: nat)
    requires Structured(cfg, w) && Legal(cfg, w, op)
    requires (k, r) in Apply(cfg, w, op).openSeen && (k, r) !in w.openSeen
    ensures Outdated(Apply(cfg, w, op), k, r)
  {
    SeenBySnapshot(cfg, w, op, k, r);
    CloseAllStructured(cfg, w, op.stale, op.ids, op.now, |op.stale|);
    CloseAllSeen(cfg, w, op.stale, op.ids, op.now, |op.stale|);
    ShownOutdated(cfg, CloseAll(cfg, w, op.stale, op.ids, op.now), k, r);
  }

  lemma SeenBySnapshot(cfg: Config, w: World, op: Op, k: string, r: nat)
    requires Legal(cfg, w, op)
    requires (k, r) in Apply(cfg, w, op).openSeen && (k, r) !in w.openSeen
    ensures op.SnapshotOp?
  {
  }

  lemma {:induction false} CloseAllSeen(cfg: Config, w: World, reasons: seq<string>, ids: seq<Option<string>>, now: int, j: nat)
    requires j <= |reasons| <= |ids|
    ensures CloseAll(cfg, w, reasons, ids, now, j).openSeen == w.openSeen
  {
    if j > 0 { CloseAllSeen(cfg, w, reasons, ids, now, j - 1); }
  }

  /** An ack of any revision shown while the incident was open changes nothing, then or later. */
  lemma AckOfOpenIgnored(cfg: Config, ws: seq<World>, ops: seq<Op>, i: nat, k: string, r: nat, terminal: bool)
    requires Run(cfg, ws, ops) && i < |ws| && (k, r) in ws[i].openSeen
    ensures Acknowledge(ws[i], k, r, terminal) == ws[i]
  {
    SeenOutdated(cfg, ws, ops, i, k, r);
  }
}
