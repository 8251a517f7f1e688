/** The tracker as an object that updates its maps and its queue in place. */
module IncidentTracker {
  import opened Names
  import opened Strings
  import opened Tracker
  import opened TrackerTheorems

  /** Snapshot order: by start, then by key. */
  predicate Before(a: Incident, b: Incident) {
    a.startedAt < b.startedAt || (a.startedAt == b.startedAt && Less(a.key, b.key))
  }

  predicate InOrder(s: seq<Incident>) {
    forall i, j :: 0 <= i < j < |s| ==> Before(s[i], s[j])
  }

  lemma BeforeTransitive(a: Incident, b: Incident, c: Incident)
    requires Before(a, b) && Before(b, c)
    ensures Before(a, c)
  {
    if a.startedAt == b.startedAt == c.startedAt { LessTransitive(a.key, b.key, c.key); }
  }

  function InsertIncident(x: Incident, s: seq<Incident>): (r: seq<Incident>)
    ensures forall y :: y in r <==> y == x || y in s
  {
    if s == [] then [x]
    else
      assert s == [s[0]] + s[1..];
      if Before(x, s[0]) then [x] + s else [s[0]] + InsertIncident(x, s[1..])
  }

  lemma {:induction false} InsertInOrder(x: Incident, s: seq<Incident>)
    requires InOrder(s) && forall y :: y in s ==> y.key != x.key
    ensures InOrder(InsertIncident(x, s))
  {
    if s != [] {
      var rest := InsertIncident(x, s[1..]);
      if Before(x, s[0]) {
        forall j | 0 < j < |s| ensures Before(x, s[j]) { BeforeTransitive(x, s[0], s[j]); }
      } else {
        assert s[0] in s;
        LessTotal(s[0].key, x.key);
        assert forall y :: y in s[1..] ==> y in s;
        InsertInOrder(x, s[1..]);
        forall j | 0 <= j < |rest| ensures Before(s[0], rest[j]) {
          assert rest[j] in rest;
        }
      }
    }
  }

  class IncidentTracker {
    const cfg: Config
    var active: map<string, Incident>
    var pending: map<string, Incident>
    var order: seq<string>
    ghost var ledger: World

    /** The ledger's tables are the real ones. */
    ghost predicate Mirrored()
      reads this
    {
      ledger.active == active && ledger.pending == pending && ledger.order == order
    }

    ghost predicate Valid()
      reads this
    {
      Structured(cfg, ledger) && Mirrored()
    }

    /** `NewTracker`; the identity is the caller's, or drawn when empty. */
    constructor (component: string, instanceID: string)
      requires ValidComponent(component) && instanceID != ""
      ensures Valid() && ledger == EMPTY
      ensures cfg == Config(component, Truncate(instanceID, MAX_IDENTITY), DEFAULT_SILENCE, DEFAULT_LIMIT)
    {
      cfg := Config(component, Truncate(instanceID, MAX_IDENTITY), DEFAULT_SILENCE, DEFAULT_LIMIT);
      active, pending, order := map[], map[], [];
      ledger := EMPTY;
    }

    method AddSample(values: seq<string>, value: string) returns (r: seq<string>)
      ensures r == AppendSample(values, value)
    {
      var trimmed := TrimSpace(value);
      if trimmed == "" || |values| >= MAX_SAMPLES {
        return values;
      }
      for i := 0 to |values|
        invariant trimmed !in values[..i]
      {
        if values[i] == trimmed {
          return values;
        }
      }
      return values + [trimmed];
    }

    method RecordDropLocked(now: int, id: Option<string>)
      requires Mirrored()
      modifies this
      ensures Mirrored() && ledger == RecordDrop(cfg, old(ledger), now, id)
    {
      ledger := RecordDrop(cfg, ledger, now, id);
      if DROPPED in active {
        var i := active[DROPPED];
        active := active[DROPPED := i.(revision := i.revision + 1, lastSeenAt := now, affected := i.affected + 1)];
      } else if id.Some? {
        active := active[DROPPED := Fresh(cfg, id.value, DROPPED, 1, DROP_DETAIL, now)];
      }
    }

    /** The part of `closeLocked` that makes room. */
    method EvictLocked(reason: string, now: int, id: Option<string>)
      requires Mirrored() && (|pending| >= cfg.limit ==> order != [] && order[0] in pending)
      modifies this
      ensures Mirrored() && ledger == Evict(cfg, old(ledger), reason, now, id)
    {
      if |pending| >= cfg.limit {
        var droppedKey := order[0];
        var dropped := pending[droppedKey];
        ledger := Popped(ledger);
        pending := pending - {droppedKey};
        order := order[1..];
        if dropped.reason != DROPPED && reason != DROPPED {
          RecordDropLocked(now, id);
        }
      }
    }

    method CloseLocked(reason: string, now: int, id: Option<string>)
      requires Mirrored() && Ready(cfg, ledger, reason)
      modifies this
      ensures Mirrored() && ledger == Close(cfg, old(ledger), reason, now, id)
    {
      var incident := Closed(active[reason]);
      active := active - {reason};
      ledger := ledger.(active := ledger.active - {reason});
      EvictLocked(reason, now, id);
      pending := pending[incident.key := incident];
      order := order + [incident.key];
      ledger := ledger.(pending := ledger.pending[incident.key := incident], order := ledger.order + [incident.key]);
    }

    /** `Record`; the two identities are what the random source yields, if asked. */
    method Record(reason: string, affected: int, sample: string, detail: string, now: int, dropId: Option<string>, id: Option<string>)
      requires Valid() && Unused(ledger, dropId) && Unused(ledger, id) && (id.Some? ==> id != dropId)
      modifies this
      ensures Valid()
      ensures ledger == Tracker.Record(cfg, old(ledger), reason, affected, sample, detail, now, dropId, id)
    {
      ApplyStructured(cfg, ledger, RecordOp(reason, affected, sample, detail, now, dropId, id));
      if !ValidReason(reason) {
        return;
      }
      var count := if affected <= 0 then 1 else affected;
      if reason in active && Stale(cfg, active[reason], now) {
        StructuredReady(cfg, ledger, reason);
        CloseLocked(reason, now, dropId);
      }
      NoteLocked(reason, count, sample, detail, now, id);
    }

    method NoteLocked(reason: string, count: int, sample: string, detail: string, now: int, id: Option<string>)
      requires Mirrored()
      modifies this
      ensures Mirrored() && ledger == Note(cfg, old(ledger), reason, count, sample, detail, now, id)
    {
      ledger := Note(cfg, ledger, reason, count, sample, detail, now, id);
      if reason in active {
        var i := active[reason];
        var samples := AddSample(i.samples, sample);
        active := active[reason := i.(revision := i.revision + 1, lastSeenAt := now, affected := i.affected + count,
                                      detail := Truncate(detail, MAX_DETAIL), samples := samples)];
      } else if id.Some? {
        var samples := AddSample([], sample);
        var i := Fresh(cfg, id.value, reason, count, Truncate(detail, MAX_DETAIL), now);
        active := active[reason := i.(samples := samples)];
      }
    }

    /** The stale reasons, in whatever order the map yields them. */
    method CollectStale(now: int) returns (stale: seq<string>)
      requires Valid()
      ensures StaleReasons(cfg, ledger, stale, now)
    {
      stale := [];
      var rest := active.Keys;
      while rest != {}
        invariant rest <= active.Keys && NoRepeats(stale)
        invariant forall i :: 0 <= i < |stale| ==> stale[i] in active && stale[i] !in rest && Stale(cfg, active[stale[i]], now)
        invariant forall r :: r in active && r !in rest && Stale(cfg, active[r], now) ==> r in stale
        decreases rest
      {
        var r := PickAny(rest);
        if Stale(cfg, active[r], now) {
          stale := stale + [r];
        }
        rest := rest - {r};
      }
    }

    method CloseStale(stale: seq<string>, ids: seq<Option<string>>, now: int)
      requires Mirrored() && ReadyAll(cfg, ledger, stale, ids, now)
      modifies this
      ensures Mirrored() && ledger == CloseAll(cfg, old(ledger), stale, ids, now)
    {
      ghost var start := ledger;
      for j := 0 to |stale|
        invariant Mirrored() && ledger == CloseAll(cfg, start, stale, ids, now, j)
      {
        assert ReadyAt(cfg, start, stale, ids, now, j);
        CloseLocked(stale[j], now, ids[j]);
      }
    }

    /** Every tracked incident once, in snapshot order. */
    ghost predicate Reports(result: seq<Incident>)
      reads this
    {
      && InOrder(result)
      && (forall r :: r in active ==> active[r] in result)
      && (forall k :: k in pending ==> pending[k] in result)
      && (forall i :: i in result ==> (i.reason in active && active[i.reason] == i) || (i.key in pending && pending[i.key] == i))
    }

    method CollectActive() returns (result: seq<Incident>)
      requires Opened(active, ledger.used)
      ensures InOrder(result)
      ensures forall r :: r in active ==> active[r] in result
      ensures forall i :: i in result ==> i.reason in active && active[i.reason] == i
    {
      result := [];
      var rest := active.Keys;
      while rest != {}
        invariant rest <= active.Keys && InOrder(result)
        invariant forall r :: r in active && r !in rest ==> active[r] in result
        invariant forall i :: i in result ==> i.reason in active && i.reason !in rest && active[i.reason] == i
        decreases rest
      {
        var r := PickAny(rest);
        InsertInOrder(active[r], result);
        result := InsertIncident(active[r], result);
        rest := rest - {r};
      }
    }

    method CollectReports() returns (result: seq<Incident>)
      requires Valid()
      ensures Reports(result)
    {
      result := CollectActive();
      ghost var open := result;
      for j := 0 to |order|
        invariant InOrder(result)
        invariant forall i :: i in open ==> i in result
        invariant forall i :: 0 <= i < j ==> pending[order[i]] in result
        invariant forall i :: i in result ==> i in open || Enqueued(i, j)
      {
        ghost var before := result;
        forall i | i in result ensures i.key != order[j] {
          if i !in open { assert Enqueued(i, j); }
        }
        InsertInOrder(pending[order[j]], result);
        result := InsertIncident(pending[order[j]], result);
        forall i | i in result ensures i in open || Enqueued(i, j + 1) {
          if i in before && i !in open { assert Enqueued(i, j); }
        }
      }
      forall k | k in pending ensures pending[k] in result { ListsAll(order, pending.Keys, k); }
      forall i | i in result && i !in open ensures i.key in pending && pending[i.key] == i {
        assert Enqueued(i, |order|);
      }
    }

    /** The incident is the one queued at some position below `j`. */
    ghost predicate Enqueued(i: Incident, j: nat)
      reads this
    {
      j <= |order| && exists p :: 0 <= p < j && order[p] in pending && pending[order[p]] == i
    }

    /** `Snapshot`; `stale` is the order in which the map yielded the stale reasons. */
    method Snapshot(now: int, ids: seq<Option<string>>) returns (result: seq<Incident>, ghost stale: seq<string>)
      requires Valid() && AllUnused(ledger, ids) && |active| <= |ids|
      modifies this
      ensures Valid() && Reports(result)
      ensures |stale| <= |ids| && StaleReasons(cfg, old(ledger), stale, now)
      ensures ledger == Tracker.Snapshot(cfg, old(ledger), stale, ids, now)
    {
      var expired := CollectStale(now);
      NoMoreThan(expired, active.Keys);
      BatchReady(cfg, ledger, expired, ids, now);
      CloseAllStructured(cfg, ledger, expired, ids, now, |expired|);
      CloseStale(expired, ids, now);
      stale := expired;
      ledger := Shown(ledger);
      result := CollectReports();
    }

    /** `Acknowledge`. */
    method Acknowledge(key: string, revision: nat, terminal: bool)
      requires Valid()
      modifies this
      ensures Valid() && ledger == Tracker.Acknowledge(old(ledger), key, revision, terminal)
    {
      if !terminal || key !in pending || pending[key].revision > revision {
        return;
      }
      ApplyStructured(cfg, ledger, AcknowledgeOp(key, revision, terminal));
      ledger := Tracker.Acknowledge(ledger, key, revision, terminal);
      ListsAll(order, pending.Keys, key);
      pending := pending - {key};
      Unqueue(key);
    }

    method Unqueue(key: string)
      requires key in order
      modifies this`order
      ensures order == Remove(old(order), key)
    {
      var index := 0;
      while order[index] != key
        invariant index < |order| && forall i :: 0 <= i < index ==> order[i] != key
        decreases |order| - index
      {
        index := index + 1;
      }
      RemoveFirst(order, key, index);
      order := order[..index] + order[index + 1..];
    }

    /** `Reset`. */
    method Reset()
      requires Valid()
      modifies this
      ensures Valid() && ledger == Tracker.Reset(old(ledger))
    {
      ledger := Tracker.Reset(ledger);
      active, pending, order := map[], map[], [];
    }
  }

  lemma StructuredReady(cfg: Config, w: World, reason: string)
    requires Structured(cfg, w) && reason in w.active
    ensures Ready(cfg, w, reason)
  {
  }

  lemma {:induction false} NoMoreThan(s: seq<string>, keys: set<string>)
    requires NoRepeats(s) && forall i :: 0 <= i < |s| ==> s[i] in keys
    ensures |s| <= |keys|
  {
    if s != [] {
      var rest := s[1..];
      forall i | 0 <= i < |rest| ensures rest[i] in keys - {s[0]} { assert rest[i] == s[i + 1]; }
      NoMoreThan(rest, keys - {s[0]});
    }
  }
}
