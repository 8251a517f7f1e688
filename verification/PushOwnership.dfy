/** Which session pushes to a cluster: the registry of sessions with its leader claims, and the
    start and stop of push loops, as small steps of concurrent Sync calls. */
module PushOwnership {
  import opened Names

  type Id = nat

  datatype Role = Leader | Standby
  datatype Entry = Entry(session: Id, role: Role, updatedAt: int)
  type Instances = map<string, Entry>
  type Registry = map<string, Instances>

  // ---- the registry ----

  /** An entry beside a new leader's. */
  function Yielded(m: Instances, instance: string, k: string): Entry
    requires k in m
  {
    if k != instance && m[k].role == Leader then m[k].(role := Standby) else m[k]
  }

  /** Entries after a claim: a new leader turns every other leader into a standby. */
  function Claimed(instances: Instances, instance: string, role: Role, s: Id, now: int): Instances {
    var m := instances[instance := Entry(s, role, now)];
    if role == Standby then m
    else map k | k in m :: Yielded(m, instance, k)
  }

  function InstancesOf(reg: Registry, cluster: string): Instances {
    if cluster in reg then reg[cluster] else map[]
  }

  function WithClaim(reg: Registry, cluster: string, instance: string, role: Role, s: Id, now: int): Registry {
    reg[cluster := Claimed(InstancesOf(reg, cluster), instance, role, s, now)]
  }

  /** The sessions a claim demotes; an earlier session of the same instance is not among them. */
  function Demoted(reg: Registry, cluster: string, instance: string, role: Role): set<Id> {
    var m := InstancesOf(reg, cluster);
    if role == Standby then {} else set k | k in m && k != instance && m[k].role == Leader :: m[k].session
  }

  predicate HoldsEntry(reg: Registry, cluster: string, instance: string, s: Id) {
    cluster in reg && instance in reg[cluster] && reg[cluster][instance].session == s
  }

  function WithoutEntry(reg: Registry, cluster: string, instance: string, s: Id): Registry {
    if !HoldsEntry(reg, cluster, instance, s) then reg
    else if reg[cluster].Keys == {instance} then reg - {cluster}
    else reg[cluster := reg[cluster] - {instance}]
  }

  ghost predicate OneLeader(m: Instances) {
    forall k, l :: k in m && l in m && m[k].role == Leader && m[l].role == Leader ==> k == l
  }

  /** Per cluster at most one leader entry, and no empty instance map. */
  ghost predicate Regular(reg: Registry) {
    forall c :: c in reg ==> reg[c].Keys != {} && OneLeader(reg[c])
  }

  predicate Leads(reg: Registry, cluster: string, instance: string, s: Id) {
    HoldsEntry(reg, cluster, instance, s) && reg[cluster][instance].role == Leader
  }

  /** The session leads, and no leader's claim is later than its own. */
  ghost predicate LatestLeader(m: map<string, Entry>, s: Id) {
    exists k :: k in m && m[k].role == Leader && m[k].session == s &&
      forall j :: j in m && m[j].role == Leader ==> m[j].updatedAt <= m[k].updatedAt
  }

  /** The registry object. */
  class SessionRegistry {
    var byID: Registry

    constructor ()
      ensures byID == map[]
    {
      byID := map[];
    }

    /** `put`: the demoted sessions come back in whatever order the map yields them. */
    method Put(cluster: string, instance: string, role: Role, s: Id, now: int) returns (demoted: seq<Id>)
      modifies this
      ensures byID == WithClaim(old(byID), cluster, instance, role, s, now)
      ensures forall d :: d in demoted <==> d in Demoted(old(byID), cluster, instance, role)
    {
      var instances := InstancesOf(byID, cluster)[instance := Entry(s, role, now)];
      demoted := [];
      ghost var before := instances;
      if role == Leader {
        var rest := instances.Keys;
        while rest != {}
          invariant byID == old(byID) && rest <= before.Keys && instances.Keys == before.Keys
          invariant forall k :: k in before ==>
                      instances[k] == if k !in rest then Yielded(before, instance, k) else before[k]
          invariant forall d :: d in demoted <==>
                      exists k :: k in before && k !in rest && k != instance && before[k].role == Leader && before[k].session == d
          decreases rest
        {
          var key := PickAny(rest);
          var entry := instances[key];
          if key != instance && entry.role == Leader {
            instances := instances[key := entry.(role := Standby)];
            demoted := demoted + [entry.session];
          }
          rest := rest - {key};
        }
        ghost var m := InstancesOf(byID, cluster);
        assert forall k :: k in before && k != instance <==> k in m && k != instance;
        forall d ensures d in demoted <==> d in Demoted(byID, cluster, instance, role) {
          if d in Demoted(byID, cluster, instance, role) {
            var k :| k in m && k != instance && m[k].role == Leader && m[k].session == d;
            assert k in before && before[k] == m[k];
          }
        }
      }
      assert instances == Claimed(InstancesOf(byID, cluster), instance, role, s, now);
      byID := byID[cluster := instances];
    }

    /** `leader`: a leading session whose claim is the latest; with at most one leader entry the
        answer does not depend on the map's order. */
    method LeaderOf(cluster: string) returns (session: Option<Id>)
      ensures session.None? <==> forall k :: k in InstancesOf(byID, cluster) ==> byID[cluster][k].role == Standby
      ensures session.Some? ==> LatestLeader(InstancesOf(byID, cluster), session.value)
      ensures Regular(byID) ==> forall k :: k in InstancesOf(byID, cluster) && byID[cluster][k].role == Leader ==>
                session == Some(byID[cluster][k].session)
    {
      var m := InstancesOf(byID, cluster);
      session := None;
      var selected := Entry(0, Standby, 0);
      ghost var at := "";
      var rest := m.Keys;
      while rest != {}
        invariant rest <= m.Keys
        invariant session.None? ==> forall k :: k in m && k !in rest ==> m[k].role == Standby
        invariant session.Some? ==>
                    && session.value == selected.session
                    && at in m && m[at] == selected && selected.role == Leader
                    && forall k :: k in m && k !in rest && m[k].role == Leader ==> m[k].updatedAt <= selected.updatedAt
        decreases rest
      {
        var k := PickAny(rest);
        var e := m[k];
        if e.role == Leader && (session.None? || e.updatedAt > selected.updatedAt) {
          selected, session, at := e, Some(e.session), k;
        }
        rest := rest - {k};
      }
    }

    /** `remove`: compare and delete. */
    method Remove(cluster: string, instance: string, s: Id) returns (wasLeader: bool)
      modifies this
      ensures byID == WithoutEntry(old(byID), cluster, instance, s)
      ensures wasLeader == Leads(old(byID), cluster, instance, s)
    {
      if cluster !in byID || instance !in byID[cluster] || byID[cluster][instance].session != s {
        return false;
      }
      wasLeader := byID[cluster][instance].role == Leader;
      var instances := byID[cluster] - {instance};
      if |instances| == 0 {
        assert byID[cluster].Keys == {instance};
        byID := byID - {cluster};
      } else {
        assert byID[cluster].Keys != {instance};
        byID := byID[cluster := instances];
      }
    }
  }

  lemma PutRegular(reg: Registry, cluster: string, instance: string, role: Role, s: Id, now: int)
    requires Regular(reg)
    ensures Regular(WithClaim(reg, cluster, instance, role, s, now))
    ensures role == Leader ==> Leads(WithClaim(reg, cluster, instance, role, s, now), cluster, instance, s)
  {
  }

  /** A session whose entry was replaced removes nothing; otherwise only its own entry goes. */
  lemma RemoveRegular(reg: Registry, cluster: string, instance: string, s: Id)
    requires Regular(reg)
    ensures Regular(WithoutEntry(reg, cluster, instance, s))
    ensures !HoldsEntry(reg, cluster, instance, s) ==> WithoutEntry(reg, cluster, instance, s) == reg
    ensures forall c, i, t :: (c, i) != (cluster, instance) ==>
              (HoldsEntry(WithoutEntry(reg, cluster, instance, s), c, i, t) <==> HoldsEntry(reg, c, i, t))
  {
  }

  // ---- one session's push loops ----

  /** A loop is known by its sequence number. `exiting` loops have returned but not yet taken the
      lock; `cancelled` holds the loops whose context was cancelled. */
  datatype Session = Session(cancel: Option<nat>, pushSeq: nat, running: set<nat>, exiting: set<nat>, cancelled: set<nat>)

  const NEW_SESSION := Session(None, 0, {}, {}, {})

  function Started(ss: Session): Session {
    if ss.cancel.Some? then ss
    else
      var q := ss.pushSeq + 1;
      ss.(pushSeq := q, cancel := Some(q), running := ss.running + {q})
  }

  function Stopped(ss: Session): Session {
    if ss.cancel.None? then ss
    else ss.(cancelled := ss.cancelled + {ss.cancel.value}, cancel := None, pushSeq := ss.pushSeq + 1)
  }

  function LoopReturn(ss: Session, q: nat): Session {
    ss.(running := ss.running - {q}, exiting := ss.exiting + {q})
  }

  function LoopExit(ss: Session, q: nat): Session {
    ss.(exiting := ss.exiting - {q}, cancel := if ss.pushSeq == q then None else ss.cancel)
  }

  /** At most one loop is running uncancelled, and it is the one `cancel` stops. */
  ghost predicate Single(ss: Session) {
    && (forall q :: q in ss.running || q in ss.exiting ==> q <= ss.pushSeq)
    && ss.running !! ss.exiting
    && (ss.cancel.Some? ==> ss.cancel.value == ss.pushSeq && ss.pushSeq in ss.running + ss.exiting)
    && (forall q :: q in ss.running && q !in ss.cancelled ==> ss.cancel == Some(q))
    && (forall q :: q in ss.cancelled ==> q <= ss.pushSeq && ss.cancel != Some(q))
  }

  datatype LoopEvent = Start | Stop | Return(q: nat) | Exit(q: nat)

  predicate LoopEnabled(ss: Session, e: LoopEvent) {
    match e case Return(q) => q in ss.running case Exit(q) => q in ss.exiting case _ => true
  }

  function LoopApply(ss: Session, e: LoopEvent): Session {
    match e case Start => Started(ss) case Stop => Stopped(ss) case Return(q) => LoopReturn(ss, q) case Exit(q) => LoopExit(ss, q)
  }

  /** Over all interleavings of starts, stops and late exits one loop at most runs uncancelled,
      and the exit of an old loop leaves a newer loop's cancel in place. */
  lemma LoopStep(ss: Session, e: LoopEvent)
    requires Single(ss) && LoopEnabled(ss, e)
    ensures Single(LoopApply(ss, e))
    ensures e.Exit? && ss.cancel.Some? && ss.cancel.value != e.q ==> LoopApply(ss, e).cancel == ss.cancel
  {
  }

  /** After a stop no loop that is still about holds the current sequence number, so none of them can
      clear the cancel of a later one; and a loop that has exited is about no more. */
  lemma StopOutdates(ss: Session, q: nat)
    requires Single(ss)
    ensures ss.cancel.Some? && (q in ss.running || q in ss.exiting) ==> q < Stopped(ss).pushSeq
    ensures Stopped(ss).cancel == None && Stopped(ss).running == ss.running && Stopped(ss).exiting == ss.exiting
    ensures q in ss.exiting ==>
              && LoopExit(ss, q).exiting == ss.exiting - {q} && LoopExit(ss, q).running == ss.running
              && (LoopExit(ss, q).cancel.None? <==> ss.cancel.None? || ss.cancel == Some(q))
  {
  }

  /** The session object's side of it. */
  class SyncSession {
    var cancel: Option<nat>
    var pushSeq: nat
    ghost var running: set<nat>
    ghost var exiting: set<nat>
    ghost var cancelled: set<nat>

    ghost function State(): Session
      reads this
    {
      Session(cancel, pushSeq, running, exiting, cancelled)
    }

    constructor ()
      ensures State() == NEW_SESSION && Single(State())
    {
      cancel, pushSeq, running, exiting, cancelled := None, 0, {}, {}, {};
    }

    /** Starts a loop unless one is on record; `sequence` is what the new goroutine captures. */
    method StartPush() returns (sequence: Option<nat>)
      requires Single(State())
      modifies this
      ensures State() == Started(old(State())) && Single(State())
      ensures sequence == if old(cancel).Some? then None else Some(pushSeq)
    {
      if cancel.Some? {
        return None;
      }
      pushSeq := pushSeq + 1;
      cancel := Some(pushSeq);
      running := running + {pushSeq};
      sequence := Some(pushSeq);
    }

    method StopPush()
      requires Single(State())
      modifies this
      ensures State() == Stopped(old(State())) && Single(State())
      ensures forall q :: q in running ==> q in cancelled
    {
      if cancel.Some? {
        cancelled := cancelled + {cancel.value};
        cancel := None;
        pushSeq := pushSeq + 1;
      }
    }

    /** What the loop's goroutine does once the loop has returned. */
    method FinishLoop(sequence: nat)
      requires Single(State()) && sequence in exiting
      modifies this
      ensures State() == LoopExit(old(State()), sequence) && Single(State())
    {
      exiting := exiting - {sequence};
      if pushSeq == sequence {
        cancel := None;
      }
    }
  }
}
