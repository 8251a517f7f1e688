/** Incident tracking: open incidents per reason, a bounded queue of closed ones awaiting
    acknowledgement, and a self-report when the queue overflows. */
module Tracker {
  import opened Names
  import opened Strings

  const MAX_SAMPLES := 5
  const MAX_DETAIL := 200
  const MAX_IDENTITY := 128
  const DEFAULT_LIMIT: nat := 256
  const DEFAULT_SILENCE := 60_000_000_000
  const DROPPED := "report_dropped"
  const DROP_DETAIL := "pending incident queue reached capacity"

  predicate ValidReason(reason: string) {
    reason in {"queue_full", "retry_exhausted", "ack_timeout", "auth_failure", "batch_failure", "write_failed", DROPPED}
  }

  predicate ValidComponent(c: string) {
    c in {"webhook", "operator", "gateway"}
  }

  /** Times are nanoseconds; 0 is Go's zero time. */
  datatype Incident = Incident(
    key: string, reporter: string, revision: nat, component: string, reason: string,
    startedAt: int, lastSeenAt: int, affected: int, samples: seq<string>, detail: string, closed: bool)

  datatype Config = Config(component: string, instanceID: string, silence: int, limit: nat)

  /** The tracker's state, with a ledger of everything that left it.
      `used` holds every key handed out, `openSeen` each (key, revision) a snapshot showed while open. */
  datatype World = World(
    active: map<string, Incident>, pending: map<string, Incident>, order: seq<string>,
    used: set<string>, openSeen: set<(string, nat)>,
    recorded: int, drops: int, acknowledged: int, evicted: int, reset: int)

  const EMPTY := World(map[], map[], [], {}, {}, 0, 0, 0, 0, 0)

  // ---- strings ----

  function Truncate(s: string, limit: nat): string {
    if |s| <= limit then s else s[..limit]
  }

  function Utf8Size(c: char): nat {
    if c as int < 0x80 then 1 else if c as int < 0x800 then 2 else if c as int < 0x10000 then 3 else 4
  }

  /** What Go's `len` counts. */
  function ByteLength(s: string, j: nat := |s|): nat
    requires j <= |s|
  {
    if j == 0 then 0 else ByteLength(s, j - 1) + Utf8Size(s[j - 1])
  }

  /** `appendSample`. */
  function AppendSample(values: seq<string>, value: string): seq<string> {
    var v := TrimSpace(value);
    if v == "" || |values| >= MAX_SAMPLES || v in values then values else values + [v]
  }

  // ---- operations ----

  function Fresh(cfg: Config, key: string, reason: string, affected: int, detail: string, now: int): Incident {
    Incident(key, cfg.instanceID, 1, cfg.component, reason, now, now, affected, [], detail, false)
  }

  /** `recordDropLocked`; `id` is the identity drawn, or None when the random source fails. */
  function RecordDrop(cfg: Config, w: World, now: int, id: Option<string>): World {
    if DROPPED in w.active then
      var i := w.active[DROPPED];
      w.(active := w.active[DROPPED := i.(revision := i.revision + 1, lastSeenAt := now, affected := i.affected + 1)],
         drops := w.drops + 1)
    else if id.None? then w
    else
      w.(active := w.active[DROPPED := Fresh(cfg, id.value, DROPPED, 1, DROP_DETAIL, now)],
         used := w.used + {id.value},
         drops := w.drops + 1)
  }

  /** Making room in a full queue: the oldest closed incident goes. */
  function Evict(cfg: Config, w: World, reason: string, now: int, id: Option<string>): World {
    if |w.pending| < cfg.limit || w.order == [] || w.order[0] !in w.pending then w
    else
      var oldest := w.pending[w.order[0]];
      var w' := w.(pending := w.pending - {w.order[0]}, order := w.order[1..], evicted := w.evicted + oldest.affected);
      if oldest.reason != DROPPED && reason != DROPPED then RecordDrop(cfg, w', now, id) else w'
  }

  function Closed(i: Incident): Incident {
    i.(closed := true, revision := i.revision + 1)
  }

  /** `closeLocked`. */
  function Close(cfg: Config, w: World, reason: string, now: int, id: Option<string>): World
    requires reason in w.active
  {
    var i := Closed(w.active[reason]);
    var w' := Evict(cfg, w.(active := w.active - {reason}), reason, now, id);
    w'.(pending := w'.pending[i.key := i], order := w'.order + [i.key])
  }

  predicate Stale(cfg: Config, i: Incident, now: int) {
    now - i.lastSeenAt > cfg.silence
  }

  /** The part of `Record` after a stale incident was closed. */
  function Note(cfg: Config, w: World, reason: string, affected: int, sample: string, detail: string, now: int, id: Option<string>): World {
    if reason in w.active then
      var i := w.active[reason];
      var i' := i.(revision := i.revision + 1, lastSeenAt := now, affected := i.affected + affected,
                   detail := Truncate(detail, MAX_DETAIL), samples := AppendSample(i.samples, sample));
      w.(active := w.active[reason := i'], recorded := w.recorded + affected)
    else if id.None? then w
    else
      var i := Fresh(cfg, id.value, reason, affected, Truncate(detail, MAX_DETAIL), now);
      w.(active := w.active[reason := i.(samples := AppendSample([], sample))],
         used := w.used + {id.value},
         recorded := w.recorded + affected)
  }

  /** `Record`; `dropId` and `id` are the identities drawn for a self-report and for the incident. */
  function Record(cfg: Config, w: World, reason: string, affected: int, sample: string, detail: string, now: int,
                  dropId: Option<string>, id: Option<string>): World
  {
    if !ValidReason(reason) then w
    else
      var w' := if reason in w.active && Stale(cfg, w.active[reason], now) then Close(cfg, w, reason, now, dropId) else w;
      Note(cfg, w', reason, if affected <= 0 then 1 else affected, sample, detail, now, id)
  }

  /** Closing several incidents in turn. */
  function CloseAll(cfg: Config, w: World, reasons: seq<string>, ids: seq<Option<string>>, now: int, j: nat := |reasons|): World
    requires j <= |reasons| <= |ids|
  {
    if j == 0 then w
    else
      var w' := CloseAll(cfg, w, reasons, ids, now, j - 1);
      if reasons[j - 1] in w'.active then Close(cfg, w', reasons[j - 1], now, ids[j - 1]) else w'
  }

  function Shown(w: World): World {
    w.(openSeen := w.openSeen + set r | r in w.active :: (w.active[r].key, w.active[r].revision))
  }

  /** `Snapshot`: the stale incidents are closed in the order `stale`, then everything is shown. */
  function Snapshot(cfg: Config, w: World, stale: seq<string>, ids: seq<Option<string>>, now: int): World
    requires |stale| <= |ids|
  {
    Shown(CloseAll(cfg, w, stale, ids, now))
  }

  function Remove(order: seq<string>, key: string): seq<string> {
    if order == [] then [] else if order[0] == key then order[1..] else [order[0]] + Remove(order[1..], key)
  }

  lemma {:induction false} RemoveFirst(order: seq<string>, key: string, index: nat)
    requires index < |order| && order[index] == key && forall i :: 0 <= i < index ==> order[i] != key
    ensures Remove(order, key) == order[..index] + order[index + 1..]
  {
    if index > 0 { RemoveFirst(order[1..], key, index - 1); }
  }

  /** `Acknowledge`. */
  function Acknowledge(w: World, key: string, revision: nat, terminal: bool): World {
    if !terminal || key !in w.pending || w.pending[key].revision > revision then w
    else w.(pending := w.pending - {key}, order := Remove(w.order, key),
            acknowledged := w.acknowledged + w.pending[key].affected)
  }

  ghost function Total(m: map<string, Incident>): int {
    if m == map[] then 0
    else var k := AnyOf(m.Keys); m[k].affected + Total(m - {k})
  }

  /** `Reset`. */
  ghost function Reset(w: World): World {
    w.(active := map[], pending := map[], order := [], reset := w.reset + Total(w.active) + Total(w.pending))
  }

  // ---- structure ----

  /** The sequence lists the set, each member once. */
  ghost predicate Lists(order: seq<string>, keys: set<string>) {
    && (forall i, j :: 0 <= i < j < |order| ==> order[i] != order[j])
    && (forall i :: 0 <= i < |order| ==> order[i] in keys)
    && |order| == |keys|
  }

  lemma {:induction false} ListsAll(order: seq<string>, keys: set<string>, k: string)
    requires Lists(order, keys) && k in keys
    ensures k in order
  {
    if order != [] && order[0] != k {
      ListsPop(order, keys);
      ListsAll(order[1..], keys - {order[0]}, k);
    }
  }

  lemma ListsPop(order: seq<string>, keys: set<string>)
    requires Lists(order, keys) && order != []
    ensures Lists(order[1..], keys - {order[0]})
  {
    var rest := order[1..];
    forall i | 0 <= i < |rest| ensures rest[i] in keys - {order[0]} { assert rest[i] == order[i + 1]; }
  }

  lemma ListsPush(order: seq<string>, keys: set<string>, k: string)
    requires Lists(order, keys) && k !in keys
    ensures Lists(order + [k], keys + {k})
  {
  }

  lemma {:induction false} ListsRemove(order: seq<string>, keys: set<string>, k: string)
    requires Lists(order, keys) && k in keys
    ensures Lists(Remove(order, k), keys - {k})
  {
    ListsAll(order, keys, k);
    if order[0] == k {
      ListsPop(order, keys);
    } else {
      var rest := Remove(order[1..], k);
      ListsPop(order, keys);
      ListsRemove(order[1..], keys - {order[0]}, k);
      assert keys - {order[0]} - {k} == keys - {k} - {order[0]};
      forall i | 0 <= i < |rest| ensures rest[i] != order[0] { assert rest[i] in keys - {order[0]} - {k}; }
    }
  }

  /** The queue lists the closed incidents once each. */
  ghost predicate Queued(pending: map<string, Incident>, order: seq<string>, used: set<string>) {
    && Lists(order, pending.Keys)
    && (forall k :: k in pending ==> pending[k].key == k && pending[k].closed && k in used)
  }

  /** Open incidents sit under their own reason, with keys of their own. */
  ghost predicate Opened(active: map<string, Incident>, used: set<string>) {
    && (forall r :: r in active ==>
          active[r].reason == r && ValidReason(r) && !active[r].closed && active[r].key in used)
    && (forall r, q :: r in active && q in active && active[r].key == active[q].key ==> r == q)
  }

  ghost predicate Apart(active: map<string, Incident>, pending: map<string, Incident>) {
    forall r :: r in active ==> active[r].key !in pending
  }

  ghost predicate Structured(cfg: Config, w: World) {
    && cfg.limit > 0 && |w.pending| <= cfg.limit
    && Queued(w.pending, w.order, w.used) && Opened(w.active, w.used) && Apart(w.active, w.pending)
  }

  predicate Unused(w: World, id: Option<string>) {
    id.Some? ==> id.value !in w.used
  }

  /** An open incident gets a new form, or a reason a first one with an unused key. */
  ghost predicate Fits(w: World, reason: string, i: Incident) {
    && i.reason == reason && ValidReason(reason) && !i.closed
    && (if reason in w.active then i.key == w.active[reason].key else i.key !in w.used)
  }

  lemma OpenedPut(w: World, reason: string, i: Incident)
    requires Opened(w.active, w.used) && Fits(w, reason, i)
    ensures Opened(w.active[reason := i], w.used + {i.key})
  {
  }

  lemma PutStructured(cfg: Config, w: World, w': World, reason: string, i: Incident)
    requires Structured(cfg, w) && Fits(w, reason, i)
    requires w'.active == w.active[reason := i] && w'.used == w.used + {i.key}
    requires w'.pending == w.pending && w'.order == w.order
    ensures Structured(cfg, w')
  {
    OpenedPut(w, reason, i);
    assert i.key !in w.pending;
  }

  lemma DropStructured(cfg: Config, w: World, now: int, id: Option<string>)
    requires Structured(cfg, w) && Unused(w, id)
    ensures Structured(cfg, RecordDrop(cfg, w, now, id))
  {
    var w' := RecordDrop(cfg, w, now, id);
    if DROPPED in w.active {
      assert w.used + {w'.active[DROPPED].key} == w.used;
      PutStructured(cfg, w, w', DROPPED, w'.active[DROPPED]);
    } else if id.Some? {
      PutStructured(cfg, w, w', DROPPED, w'.active[DROPPED]);
    }
  }

  lemma RemoveSize<V>(m: map<string, V>, k: string)
    requires k in m
    ensures (m - {k}).Keys == m.Keys - {k} && |m - {k}| == |m| - 1
  {
  }

  function Popped(w: World): World
    requires w.order != [] && w.order[0] in w.pending
  {
    w.(pending := w.pending - {w.order[0]}, order := w.order[1..], evicted := w.evicted + w.pending[w.order[0]].affected)
  }

  lemma PopStructured(cfg: Config, w: World)
    requires Structured(cfg, w) && w.order != []
    ensures w.order[0] in w.pending && Structured(cfg, Popped(w))
    ensures |Popped(w).pending| == |w.pending| - 1
  {
    ListsPop(w.order, w.pending.Keys);
    RemoveSize(w.pending, w.order[0]);
  }

  lemma EvictStructured(cfg: Config, w: World, reason: string, now: int, id: Option<string>)
    requires Structured(cfg, w) && Unused(w, id)
    ensures Structured(cfg, Evict(cfg, w, reason, now, id))
    ensures |Evict(cfg, w, reason, now, id).pending| < cfg.limit
  {
    if |w.pending| == cfg.limit {
      PopStructured(cfg, w);
      DropStructured(cfg, Popped(w), now, id);
    }
  }

  /** What eviction leaves alone. */
  lemma EvictKeeps(cfg: Config, w: World, reason: string, now: int, id: Option<string>, key: string)
    requires Unused(w, id) && key in w.used && key !in w.pending
    requires forall r :: r in w.active ==> w.active[r].key != key
    ensures
      var w' := Evict(cfg, w, reason, now, id);
      && key !in w'.pending && w.used <= w'.used
      && (forall r :: r in w'.active ==> w'.active[r].key != key)
  {
  }

  lemma RemoveActive(cfg: Config, w: World, reason: string)
    requires Structured(cfg, w) && reason in w.active
    ensures
      var w1 := w.(active := w.active - {reason});
      && Structured(cfg, w1)
      && (forall r :: r in w1.active ==> w1.active[r].key != w.active[reason].key)
  {
  }

  lemma PushStructured(cfg: Config, w: World, i: Incident)
    requires Structured(cfg, w) && |w.pending| < cfg.limit
    requires i.closed && i.key in w.used && i.key !in w.pending
    requires forall r :: r in w.active ==> w.active[r].key != i.key
    ensures Structured(cfg, w.(pending := w.pending[i.key := i], order := w.order + [i.key]))
  {
    ListsPush(w.order, w.pending.Keys, i.key);
    assert w.pending[i.key := i].Keys == w.pending.Keys + {i.key};
  }

  lemma CloseStructured(cfg: Config, w: World, reason: string, now: int, id: Option<string>)
    requires Structured(cfg, w) && Unused(w, id) && reason in w.active
    ensures Structured(cfg, Close(cfg, w, reason, now, id))
  {
    var i := Closed(w.active[reason]);
    var w1 := w.(active := w.active - {reason});
    RemoveActive(cfg, w, reason);
    EvictStructured(cfg, w1, reason, now, id);
    EvictKeeps(cfg, w1, reason, now, id, i.key);
    PushStructured(cfg, Evict(cfg, w1, reason, now, id), i);
  }

  lemma NoteStructured(cfg: Config, w: World, reason: string, affected: int, sample: string, detail: string, now: int, id: Option<string>)
    requires Structured(cfg, w) && Unused(w, id) && ValidReason(reason)
    ensures Structured(cfg, Note(cfg, w, reason, affected, sample, detail, now, id))
  {
    var w' := Note(cfg, w, reason, affected, sample, detail, now, id);
    if reason in w.active {
      assert w.used + {w'.active[reason].key} == w.used;
      PutStructured(cfg, w, w', reason, w'.active[reason]);
    } else if id.Some? {
      PutStructured(cfg, w, w', reason, w'.active[reason]);
    }
  }

  /** Closing one incident leaves every other reason open, and hands out no other key. */
  lemma CloseKeeps(cfg: Config, w: World, reason: string, now: int, id: Option<string>)
    requires reason in w.active
    ensures forall r :: r in w.active && r != reason ==> r in Close(cfg, w, reason, now, id).active
    ensures w.used <= Close(cfg, w, reason, now, id).used
    ensures forall k :: k in Close(cfg, w, reason, now, id).used ==> k in w.used || id == Some(k)
  {
  }

  /** Identities for a batch of closes: none handed out before, no two alike. */
  ghost predicate AllUnused(w: World, ids: seq<Option<string>>) {
    && (forall i :: 0 <= i < |ids| ==> Unused(w, ids[i]))
    && (forall i, j :: 0 <= i < j < |ids| && ids[i].Some? ==> ids[i] != ids[j])
  }

  ghost predicate NoRepeats(s: seq<string>) {
    forall i, j :: 0 <= i < j < |s| ==> s[i] != s[j]
  }

  /** The close loop finds each incident it set out to close, whatever the order. */
  lemma {:induction false} CloseAllStructured(
    cfg: Config, w: World, reasons: seq<string>, ids: seq<Option<string>>, now: int, j: nat)
    requires Structured(cfg, w) && j <= |reasons| <= |ids| && AllUnused(w, ids)
    requires NoRepeats(reasons) && forall i :: 0 <= i < |reasons| ==> reasons[i] in w.active
    ensures
      var w' := CloseAll(cfg, w, reasons, ids, now, j);
      && Structured(cfg, w')
      && (forall i :: j <= i < |reasons| ==> reasons[i] in w'.active)
      && (forall i :: j <= i < |ids| ==> Unused(w', ids[i]))
  {
    if j > 0 {
      CloseAllStructured(cfg, w, reasons, ids, now, j - 1);
      var w' := CloseAll(cfg, w, reasons, ids, now, j - 1);
      CloseStructured(cfg, w', reasons[j - 1], now, ids[j - 1]);
      CloseKeeps(cfg, w', reasons[j - 1], now, ids[j - 1]);
    }
  }

  // ---- runs ----

  datatype Op =
    | RecordOp(reason: string, affected: int, sample: string, detail: string, now: int, dropId: Option<string>, id: Option<string>)
    | SnapshotOp(stale: seq<string>, ids: seq<Option<string>>, now: int)
    | AcknowledgeOp(key: string, revision: nat, terminal: bool)
    | ResetOp

  /** `stale` is the order the map happened to yield the stale reasons in. */
  ghost predicate StaleReasons(cfg: Config, w: World, stale: seq<string>, now: int) {
    && NoRepeats(stale)
    && (forall i :: 0 <= i < |stale| ==> stale[i] in w.active && Stale(cfg, w.active[stale[i]], now))
    && (forall r :: r in w.active && Stale(cfg, w.active[r], now) ==> r in stale)
  }

  /** Drawn identities are new, and a snapshot closes exactly the stale incidents. */
  ghost predicate Legal(cfg: Config, w: World, op: Op) {
    match op
    case RecordOp(_, _, _, _, _, dropId, id) => Unused(w, dropId) && Unused(w, id) && (id.Some? ==> id != dropId)
    case SnapshotOp(stale, ids, now) => |stale| <= |ids| && AllUnused(w, ids) && StaleReasons(cfg, w, stale, now)
    case _ => true
  }

  ghost function Apply(cfg: Config, w: World, op: Op): World
    requires Legal(cfg, w, op)
  {
    match op
    case RecordOp(reason, affected, sample, detail, now, dropId, id) =>
      Record(cfg, w, reason, affected, sample, detail, now, dropId, id)
    case SnapshotOp(stale, ids, now) => Snapshot(cfg, w, stale, ids, now)
    case AcknowledgeOp(key, revision, terminal) => Acknowledge(w, key, revision, terminal)
    case ResetOp => Reset(w)
  }

  ghost predicate StepAt(cfg: Config, ws: seq<World>, ops: seq<Op>, i: nat)
    requires i < |ops| < |ws|
  {
    Legal(cfg, ws[i], ops[i]) && ws[i + 1] == Apply(cfg, ws[i], ops[i])
  }

  ghost predicate Run(cfg: Config, ws: seq<World>, ops: seq<Op>) {
    && |ws| == |ops| + 1 && ws[0] == EMPTY && cfg.limit > 0
    && forall i :: 0 <= i < |ops| ==> StepAt(cfg, ws, ops, i)
  }

  lemma ApplyStructured(cfg: Config, w: World, op: Op)
    requires Structured(cfg, w) && Legal(cfg, w, op)
    ensures Structured(cfg, Apply(cfg, w, op))
  {
    match op {
      case RecordOp(reason, affected, sample, detail, now, dropId, id) =>
        if ValidReason(reason) {
          if reason in w.active && Stale(cfg, w.active[reason], now) {
            CloseStructured(cfg, w, reason, now, dropId);
            CloseKeeps(cfg, w, reason, now, dropId);
            NoteStructured(cfg, Close(cfg, w, reason, now, dropId), reason, if affected <= 0 then 1 else affected, sample, detail, now, id);
          } else {
            NoteStructured(cfg, w, reason, if affected <= 0 then 1 else affected, sample, detail, now, id);
          }
        }
      case SnapshotOp(stale, ids, now) =>
        CloseAllStructured(cfg, w, stale, ids, now, |stale|);
      case AcknowledgeOp(key, revision, terminal) =>
        if key in w.pending {
          ListsRemove(w.order, w.pending.Keys, key);
          RemoveSize(w.pending, key);
        }
      case ResetOp =>
    }
  }

  /** In every run the queue, the open incidents and the bound stay in order. */
  lemma {:induction false} RunStructured(cfg: Config, ws: seq<World>, ops: seq<Op>, i: nat)
    requires Run(cfg, ws, ops) && i < |ws|
    ensures Structured(cfg, ws[i])
  {
    if i > 0 {
      RunStructured(cfg, ws, ops, i - 1);
      assert StepAt(cfg, ws, ops, i - 1);
      ApplyStructured(cfg, ws[i - 1], ops[i - 1]);
    }
  }
}
