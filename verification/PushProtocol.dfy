/** Concurrent Sync calls: every lock-protected action of role updates, disconnects and push loops
    is one step, and steps of different sessions interleave freely. */
module PushProtocol {
  import opened Names
  import opened PushOwnership

  /** Where a session's receive goroutine stands. After a claim it stops the demoted sessions, then
      a leader checks that it still leads and, separately, starts its loop; a standby stops its own. */
  datatype Pc =
    | Idle
    | Demoting(role: Role, todo: set<Id>)
    | Checking
    | Starting
    | Standing
    | Closing
    | Gone

  datatype Conn = Conn(cluster: string, instance: string, pc: Pc, push: Session)

  /** `late` holds the sessions whose loop was started when they no longer led, until that loop is
      stopped or exits, or the session claims leadership again. */
  datatype World = World(reg: Registry, conns: map<Id, Conn>, late: set<Id>)

  const EMPTY := World(map[], map[], {})

  datatype Event =
    | Connect(s: Id, cluster: string, instance: string)
    | Claim(s: Id, role: Role, now: int)
    | StopDemoted(s: Id, d: Id)
    | EndDemotion(s: Id)
    | Check(s: Id)
    | StartLoop(s: Id)
    | Stand(s: Id)
    | HangUp(s: Id)
    | Unregister(s: Id)
    | LoopReturns(s: Id, q: nat)
    | LoopExits(s: Id, q: nat)

  predicate Registered(w: World, t: Id) {
    t in w.conns && HoldsEntry(w.reg, w.conns[t].cluster, w.conns[t].instance, t)
  }

  predicate LeadsNow(w: World, t: Id) {
    t in w.conns && Leads(w.reg, w.conns[t].cluster, w.conns[t].instance, t)
  }

  /** A loop of this session runs and has not been told to stop. */
  ghost predicate Pushing(w: World, t: Id) {
    t in w.conns && exists q :: q in w.conns[t].push.running && q !in w.conns[t].push.cancelled
  }

  predicate Enabled(w: World, e: Event) {
    if e.Connect? then e.s !in w.conns
    else
      e.s in w.conns &&
      var pc := w.conns[e.s].pc;
      match e
      case Claim(_, _, _) => pc == Idle
      case StopDemoted(_, d) => pc.Demoting? && d in pc.todo && d in w.conns
      case EndDemotion(_) => pc.Demoting? && pc.todo == {}
      case Check(_) => pc == Checking
      case StartLoop(_) => pc == Starting
      case Stand(_) => pc == Standing
      case HangUp(_) => pc == Idle
      case Unregister(_) => pc == Closing
      case LoopReturns(s, q) => q in w.conns[s].push.running
      case LoopExits(s, q) => q in w.conns[s].push.exiting
      case _ => true
  }

  function At(w: World, s: Id, pc: Pc): World
    requires s in w.conns
  {
    w.(conns := w.conns[s := w.conns[s].(pc := pc)])
  }

  function WithPush(w: World, s: Id, ss: Session): World
    requires s in w.conns
  {
    w.(conns := w.conns[s := w.conns[s].(push := ss)], late := if ss.cancel.None? then w.late - {s} else w.late)
  }

  function StopLoop(w: World, s: Id): World
    requires s in w.conns
  {
    WithPush(w, s, Stopped(w.conns[s].push))
  }

  function Apply(w: World, e: Event): World
    requires Enabled(w, e)
  {
    match e
    case Connect(s, c, i) => w.(conns := w.conns[s := Conn(c, i, Idle, NEW_SESSION)])
    case Claim(s, role, now) =>
      var c, i := w.conns[s].cluster, w.conns[s].instance;
      At(w.(reg := WithClaim(w.reg, c, i, role, s, now), late := if role == Leader then w.late - {s} else w.late),
         s, Demoting(role, Demoted(w.reg, c, i, role)))
    case StopDemoted(s, d) =>
      var pc := w.conns[s].pc;
      At(StopLoop(w, d), s, Demoting(pc.role, pc.todo - {d}))
    case EndDemotion(s) => At(w, s, if w.conns[s].pc.role == Leader then Checking else Standing)
    case Check(s) => At(w, s, if LeadsNow(w, s) then Starting else Idle)
    case StartLoop(s) =>
      var w' := At(WithPush(w, s, Started(w.conns[s].push)), s, Idle);
      if LeadsNow(w, s) then w' else w'.(late := w'.late + {s})
    case Stand(s) => At(StopLoop(w, s), s, Idle)
    case HangUp(s) => At(StopLoop(w, s), s, Closing)
    case Unregister(s) =>
      At(w.(reg := WithoutEntry(w.reg, w.conns[s].cluster, w.conns[s].instance, s)), s, Gone)
    case LoopReturns(s, q) => WithPush(w, s, LoopReturn(w.conns[s].push, q))
    case LoopExits(s, q) => WithPush(w, s, LoopExit(w.conns[s].push, q))
  }

  // ---- the invariant ----

  ghost predicate Owned(w: World) {
    forall c, i :: c in w.reg && i in w.reg[c] ==>
      var t := w.reg[c][i].session; t in w.conns && w.conns[t].cluster == c && w.conns[t].instance == i
  }

  /** Someone is about to stop this session's loop. */
  ghost predicate StopPending(w: World, t: Id) {
    || (exists s :: s in w.conns && w.conns[s].pc.Demoting? && t in w.conns[s].pc.todo)
    || (t in w.conns && (w.conns[t].pc == Standing || (w.conns[t].pc.Demoting? && w.conns[t].pc.role == Standby)))
  }

  ghost predicate Accounted(w: World, t: Id)
    requires t in w.conns
  {
    && Single(w.conns[t].push)
    && (w.conns[t].pc.Demoting? ==> w.conns[t].pc.todo <= w.conns.Keys)
    && (Registered(w, t) && w.conns[t].push.cancel.Some? && !LeadsNow(w, t) ==> t in w.late || StopPending(w, t))
    && (t in w.late ==> !LeadsNow(w, t) && w.conns[t].push.cancel.Some?)
  }

  /** Sessions are only ever stopped by claims on their own cluster. */
  ghost predicate Local(w: World) {
    forall s, d :: s in w.conns && w.conns[s].pc.Demoting? && d in w.conns[s].pc.todo && d in w.conns ==>
      w.conns[d].cluster == w.conns[s].cluster
  }

  ghost predicate Inv(w: World) {
    && Regular(w.reg) && Owned(w) && Local(w) && w.late <= w.conns.Keys
    && forall t :: t in w.conns ==> Accounted(w, t)
  }

  /** Changing session `s` keeps the stops pending that it does not itself carry. */
  lemma KeepsPending(w: World, w': World, t: Id, s: Id)
    requires forall u :: u in w.conns && u != s ==> u in w'.conns && w'.conns[u].pc == w.conns[u].pc
    requires s in w.conns ==> s in w'.conns && (w.conns[s].pc.Demoting? && t in w.conns[s].pc.todo ==>
               w'.conns[s].pc.Demoting? && t in w'.conns[s].pc.todo)
    requires t != s
    ensures StopPending(w, t) ==> StopPending(w', t)
  {
  }

  lemma LocalEvent(w: World, e: Event)
    requires Owned(w) && Local(w) && Enabled(w, e)
    requires forall t :: t in w.conns && w.conns[t].pc.Demoting? ==> w.conns[t].pc.todo <= w.conns.Keys
    ensures Local(Apply(w, e))
  {
    var w' := Apply(w, e);
    if e.Claim? {
      var c, i := w.conns[e.s].cluster, w.conns[e.s].instance;
      forall d | d in Demoted(w.reg, c, i, e.role) && d in w.conns ensures w.conns[d].cluster == c { }
    } else {
      forall s, d | s in w'.conns && w'.conns[s].pc.Demoting? && d in w'.conns[s].pc.todo && d in w'.conns
        ensures w'.conns[d].cluster == w'.conns[s].cluster
      {
        assert w.conns[s].pc.Demoting? && d in w.conns[s].pc.todo;
      }
    }
  }

  lemma InvConnect(w: World, e: Event)
    requires Inv(w) && e.Connect? && Enabled(w, e)
    ensures Inv(Apply(w, e))
  {
    var w' := Apply(w, e);
    TodosKnown(w);
    LocalEvent(w, e);
    forall t | t in w'.conns ensures Accounted(w', t) {
      if t != e.s {
        assert Accounted(w, t);
        KeepsPending(w, w', t, e.s);
      }
    }
  }

  lemma TodosKnown(w: World)
    requires forall t :: t in w.conns ==> Accounted(w, t)
    ensures forall t :: t in w.conns && w.conns[t].pc.Demoting? ==> w.conns[t].pc.todo <= w.conns.Keys
  {
    forall t | t in w.conns && w.conns[t].pc.Demoting? ensures w.conns[t].pc.todo <= w.conns.Keys { assert Accounted(w, t); }
  }

  /** A claim demotes exactly the leading sessions of the cluster's other instances. */
  lemma ClaimEffect(w: World, s: Id, role: Role, now: int, t: Id)
    requires Regular(w.reg) && Owned(w) && s in w.conns && t in w.conns && t != s
    ensures
      var c, i := w.conns[s].cluster, w.conns[s].instance;
      var reg' := WithClaim(w.reg, c, i, role, s, now);
      var d, j := w.conns[t].cluster, w.conns[t].instance;
      && (HoldsEntry(reg', d, j, t) ==> HoldsEntry(w.reg, d, j, t))
      && (Leads(reg', d, j, t) ==> Leads(w.reg, d, j, t))
      && (HoldsEntry(reg', d, j, t) && Leads(w.reg, d, j, t) && !Leads(reg', d, j, t) ==> t in Demoted(w.reg, c, i, role))
  {
  }

  lemma ClaimOwned(w: World, s: Id, role: Role, now: int)
    requires Regular(w.reg) && Owned(w) && s in w.conns
    ensures
      var c, i := w.conns[s].cluster, w.conns[s].instance;
      && Regular(WithClaim(w.reg, c, i, role, s, now))
      && Owned(w.(reg := WithClaim(w.reg, c, i, role, s, now)))
      && Demoted(w.reg, c, i, role) <= w.conns.Keys
  {
    PutRegular(w.reg, w.conns[s].cluster, w.conns[s].instance, role, s, now);
  }

  lemma ClaimAt(w: World, e: Event, t: Id)
    requires Regular(w.reg) && Owned(w) && e.Claim? && Enabled(w, e) && t in w.conns && Accounted(w, t)
    ensures Accounted(Apply(w, e), t)
  {
    var w' := Apply(w, e);
    var c, i := w.conns[e.s].cluster, w.conns[e.s].instance;
    PutRegular(w.reg, c, i, e.role, e.s, e.now);
    if t == e.s {
      ClaimOwned(w, e.s, e.role, e.now);
    } else {
      ClaimEffect(w, e.s, e.role, e.now, t);
      KeepsPending(w, w', t, e.s);
      assert w'.conns[e.s].pc == Demoting(e.role, Demoted(w.reg, c, i, e.role));
    }
  }

  /** What `s` does to itself keeps its own pending stops, unless it has just been stopped. */
  lemma OwnMove(w: World, w': World, s: Id)
    requires s in w.conns && w.conns.Keys == w'.conns.Keys
    requires forall u :: u in w.conns && u != s ==> w'.conns[u].pc == w.conns[u].pc
    requires w.conns[s].pc.Demoting? ==> s !in w.conns[s].pc.todo
    requires w.conns[s].pc == Standing || (w.conns[s].pc.Demoting? && w.conns[s].pc.role == Standby) ==> w'.conns[s].pc == Standing
    ensures StopPending(w, s) ==> StopPending(w', s)
  {
  }

  /** Steps that move one session's program counter and nothing else. */
  lemma MoveAt(w: World, e: Event, t: Id)
    requires (e.EndDemotion? || e.Check?) && Enabled(w, e) && t in w.conns && Accounted(w, t)
    ensures Accounted(Apply(w, e), t)
  {
    var w' := Apply(w, e);
    if t != e.s { KeepsPending(w, w', t, e.s); } else { OwnMove(w, w', t); }
  }

  lemma StopAt(w: World, e: Event, t: Id)
    requires e.StopDemoted? && Enabled(w, e) && t in w.conns && Accounted(w, t)
    ensures Accounted(Apply(w, e), t)
  {
    var w' := Apply(w, e);
    if t == e.d {
      LoopStep(w.conns[t].push, Stop);
    } else {
      assert w'.conns[t].push == w.conns[t].push;
      StopKeepsPending(w, w', e.s, e.d, t);
    }
  }

  lemma StopKeepsPending(w: World, w': World, s: Id, d: Id, t: Id)
    requires s in w.conns && w.conns.Keys == w'.conns.Keys && t != d
    requires forall u :: u in w.conns && u != s ==> w'.conns[u].pc == w.conns[u].pc
    requires w.conns[s].pc.Demoting? && w'.conns[s].pc == Demoting(w.conns[s].pc.role, w.conns[s].pc.todo - {d})
    ensures StopPending(w, t) ==> StopPending(w', t)
  {
  }

  lemma StartAt(w: World, e: Event, t: Id)
    requires e.StartLoop? && Enabled(w, e) && t in w.conns && Accounted(w, t)
    ensures Accounted(Apply(w, e), t)
  {
    var w' := Apply(w, e);
    if t == e.s { LoopStep(w.conns[t].push, Start); } else { KeepsPending(w, w', t, e.s); }
  }

  lemma HaltAt(w: World, e: Event, t: Id)
    requires (e.Stand? || e.HangUp?) && Enabled(w, e) && t in w.conns && Accounted(w, t)
    ensures Accounted(Apply(w, e), t)
  {
    var w' := Apply(w, e);
    if t == e.s { LoopStep(w.conns[t].push, Stop); } else { KeepsPending(w, w', t, e.s); }
  }

  lemma UnregisterAt(w: World, e: Event, t: Id)
    requires Regular(w.reg) && e.Unregister? && Enabled(w, e) && t in w.conns && Accounted(w, t)
    ensures Accounted(Apply(w, e), t)
  {
    var w' := Apply(w, e);
    RemoveRegular(w.reg, w.conns[e.s].cluster, w.conns[e.s].instance, e.s);
    if t != e.s { KeepsPending(w, w', t, e.s); }
  }

  lemma LoopAt(w: World, e: Event, t: Id)
    requires (e.LoopReturns? || e.LoopExits?) && Enabled(w, e) && t in w.conns && Accounted(w, t)
    ensures Accounted(Apply(w, e), t)
  {
    var w' := Apply(w, e);
    if t == e.s { LoopStep(w.conns[t].push, if e.LoopReturns? then Return(e.q) else Exit(e.q)); }
    SamePending(w, w', t);
  }

  lemma SamePending(w: World, w': World, t: Id)
    requires w.conns.Keys == w'.conns.Keys && forall u :: u in w.conns ==> w'.conns[u].pc == w.conns[u].pc
    ensures StopPending(w, t) ==> StopPending(w', t)
  {
  }

  lemma EventAt(w: World, e: Event, t: Id)
    requires Inv(w) && Enabled(w, e) && t in w.conns
    ensures t in Apply(w, e).conns && Accounted(Apply(w, e), t)
  {
    assert Accounted(w, t);
    match e {
      case Connect(_, _, _) => InvConnect(w, e);
      case Claim(_, _, _) => ClaimAt(w, e, t);
      case StopDemoted(_, _) => StopAt(w, e, t);
      case EndDemotion(_) => MoveAt(w, e, t);
      case Check(_) => MoveAt(w, e, t);
      case StartLoop(_) => StartAt(w, e, t);
      case Stand(_) => HaltAt(w, e, t);
      case HangUp(_) => HaltAt(w, e, t);
      case Unregister(_) => UnregisterAt(w, e, t);
      case LoopReturns(_, _) => LoopAt(w, e, t);
      case LoopExits(_, _) => LoopAt(w, e, t);
    }
  }

  lemma OwnedSame(w: World, w': World)
    requires Owned(w) && w'.reg == w.reg
    requires forall t :: t in w.conns ==>
      t in w'.conns && w'.conns[t].cluster == w.conns[t].cluster && w'.conns[t].instance == w.conns[t].instance
    ensures Owned(w')
  {
  }

  lemma EventRegistry(w: World, e: Event)
    requires Regular(w.reg) && Owned(w) && w.late <= w.conns.Keys && Enabled(w, e)
    ensures var w' := Apply(w, e); Regular(w'.reg) && Owned(w') && w'.late <= w'.conns.Keys
  {
    if e.Claim? {
      ClaimOwned(w, e.s, e.role, e.now);
      OwnedSame(w.(reg := Apply(w, e).reg), Apply(w, e));
    } else if e.Unregister? {
      UnregisterOwned(w, e.s);
      OwnedSame(w.(reg := Apply(w, e).reg), Apply(w, e));
    } else {
      OwnedSame(w, Apply(w, e));
    }
  }

  lemma UnregisterOwned(w: World, s: Id)
    requires Regular(w.reg) && Owned(w) && s in w.conns
    ensures
      var reg' := WithoutEntry(w.reg, w.conns[s].cluster, w.conns[s].instance, s);
      Regular(reg') && Owned(w.(reg := reg'))
  {
    RemoveRegular(w.reg, w.conns[s].cluster, w.conns[s].instance, s);
  }

  lemma InvEvent(w: World, e: Event)
    requires Inv(w) && Enabled(w, e)
    ensures Inv(Apply(w, e))
  {
    if e.Connect? {
      InvConnect(w, e);
    } else {
      EventRegistry(w, e);
      TodosKnown(w);
      LocalEvent(w, e);
      var w' := Apply(w, e);
      forall t | t in w'.conns ensures Accounted(w', t) { EventAt(w, e, t); }
    }
  }

  // ---- runs ----

  ghost predicate StepAt(ws: seq<World>, es: seq<Event>, i: nat)
    requires i < |es| < |ws|
  {
    Enabled(ws[i], es[i]) && ws[i + 1] == Apply(ws[i], es[i])
  }

  ghost predicate Run(ws: seq<World>, es: seq<Event>) {
    |ws| == |es| + 1 && ws[0] == EMPTY && forall i :: 0 <= i < |es| ==> StepAt(ws, es, i)
  }

  lemma {:induction false} RunInv(ws: seq<World>, es: seq<Event>, i: nat)
    requires Run(ws, es) && i < |ws|
    ensures Inv(ws[i])
  {
    if i > 0 {
      RunInv(ws, es, i - 1);
      assert StepAt(ws, es, i - 1);
      InvEvent(ws[i - 1], es[i - 1]);
    }
  }

  /** The session is in the middle of a role update or a disconnect. */
  predicate Mid(pc: Pc) {
    pc != Idle && pc != Gone
  }

  /** In every run each cluster has at most one leader entry and no empty instance map, and each
      session at most one loop running uncancelled. */
  lemma AlwaysRegular(ws: seq<World>, es: seq<Event>, i: nat, t: Id, q: nat, r: nat)
    requires Run(ws, es) && i < |ws|
    ensures Regular(ws[i].reg)
    ensures t in ws[i].conns ==>
      var ss := ws[i].conns[t].push;
      q in ss.running && r in ss.running && q !in ss.cancelled && r !in ss.cancelled ==> q == r
  {
    RunInv(ws, es, i);
    if t in ws[i].conns { assert Accounted(ws[i], t); }
  }

  /** In every state a registered session that pushes leads its cluster, or is about to be stopped, or
      started its loop after it had lost the lead; in the last case it does not lead. */
  lemma PusherAccounted(ws: seq<World>, es: seq<Event>, i: nat, t: Id)
    requires Run(ws, es) && i < |ws|
    requires Registered(ws[i], t) && Pushing(ws[i], t)
    ensures LeadsNow(ws[i], t) || StopPending(ws[i], t) || t in ws[i].late
    ensures t in ws[i].late ==> !LeadsNow(ws[i], t)
  {
    RunInv(ws, es, i);
    assert Accounted(ws[i], t);
  }

  /** No session of the cluster is in the middle of a role update or a disconnect. */
  ghost predicate Quiet(w: World, cluster: string) {
    forall s :: s in w.conns && w.conns[s].cluster == cluster ==> !Mid(w.conns[s].pc)
  }

  lemma QuietMeansNoStop(w: World, t: Id)
    requires Local(w) && t in w.conns && Quiet(w, w.conns[t].cluster)
    ensures !StopPending(w, t)
  {
  }

  /** Where no role update of its cluster is under way, a session that pushes leads it exactly when it
      still has its entry and did not start its loop after it had lost the lead. */
  lemma PusherLeads(ws: seq<World>, es: seq<Event>, i: nat, t: Id)
    requires Run(ws, es) && i < |ws|
    requires Pushing(ws[i], t) && Quiet(ws[i], ws[i].conns[t].cluster)
    ensures LeadsNow(ws[i], t) <==> Registered(ws[i], t) && t !in ws[i].late
  {
    RunInv(ws, es, i);
    QuietMeansNoStop(ws[i], t);
    if Registered(ws[i], t) { PusherAccounted(ws, es, i, t); }
  }

  // ---- sessions without an entry ----

  /** The session is in the middle of a role update, or a loop of it is on record. */
  predicate HasClaimed(conn: Conn) {
    conn.pc.Demoting? || conn.pc == Checking || conn.pc == Starting || conn.pc == Standing || conn.push.cancel.Some?
  }

  /** Once a session is closing it has no loop on record, and none is started any more. */
  ghost predicate Ended(w: World) {
    forall t :: t in w.conns && (w.conns[t].pc == Closing || w.conns[t].pc == Gone) ==> w.conns[t].push.cancel.None?
  }

  lemma EndedEvent(w: World, e: Event)
    requires Ended(w) && Enabled(w, e)
    ensures Ended(Apply(w, e))
  {
  }

  lemma {:induction false} RunEnded(ws: seq<World>, es: seq<Event>, i: nat)
    requires Run(ws, es) && i < |ws|
    ensures Ended(ws[i])
  {
    if i > 0 {
      RunEnded(ws, es, i - 1);
      assert StepAt(ws, es, i - 1);
      EndedEvent(ws[i - 1], es[i - 1]);
    }
  }

  /** Another session of the same cluster and instance claims a role, and takes over the entry. */
  ghost predicate Displaces(w: World, e: Event, t: Id) {
    && e.Claim? && e.s in w.conns && e.s != t && Registered(w, t)
    && w.conns[e.s].cluster == w.conns[t].cluster && w.conns[e.s].instance == w.conns[t].instance
  }

  /** The only step that takes the entry of a session in use is a claim by its own instance. */
  lemma LosesEntry(w: World, e: Event, t: Id)
    requires Regular(w.reg) && Ended(w) && Enabled(w, e) && Registered(w, t) && HasClaimed(w.conns[t])
    requires !Registered(Apply(w, e), t)
    ensures Displaces(w, e, t)
  {
  }

  lemma FirstClaim(w: World, e: Event, t: Id)
    requires Enabled(w, e) && t in w.conns && !HasClaimed(w.conns[t]) && HasClaimed(Apply(w, e).conns[t])
    ensures Registered(Apply(w, e), t)
  {
  }

  lemma WithoutEntryStep(w: World, e: Event, t: Id)
    requires Regular(w.reg) && Ended(w) && Enabled(w, e) && t in w.conns
    requires HasClaimed(Apply(w, e).conns[t]) && !Registered(Apply(w, e), t)
    ensures Displaces(w, e, t) || (HasClaimed(w.conns[t]) && !Registered(w, t))
  {
    if !HasClaimed(w.conns[t]) { FirstClaim(w, e, t); }
    else if Registered(w, t) { LosesEntry(w, e, t); }
  }

  /** A session just connected has no role update under way and no loop. */
  lemma NewcomerIdle(w: World, e: Event, t: Id)
    requires Enabled(w, e) && t in Apply(w, e).conns && HasClaimed(Apply(w, e).conns[t])
    ensures t in w.conns
  {
  }

  /** In every run a session that has claimed a role and has no entry was displaced by another session
      of its own cluster and instance. */
  lemma {:induction false} Displaced(ws: seq<World>, es: seq<Event>, i: nat, t: Id) returns (j: nat)
    requires Run(ws, es) && i < |ws| && t in ws[i].conns && HasClaimed(ws[i].conns[t]) && !Registered(ws[i], t)
    ensures j < i && Displaces(ws[j], es[j], t)
  {
    assert StepAt(ws, es, i - 1);
    NewcomerIdle(ws[i - 1], es[i - 1], t);
    RunInv(ws, es, i - 1);
    RunEnded(ws, es, i - 1);
    WithoutEntryStep(ws[i - 1], es[i - 1], t);
    if Displaces(ws[i - 1], es[i - 1], t) {
      j := i - 1;
    } else {
      j := Displaced(ws, es, i - 1, t);
    }
  }

  /** So was every session that pushes without an entry. */
  lemma PusherWithoutEntry(ws: seq<World>, es: seq<Event>, i: nat, t: Id) returns (j: nat)
    requires Run(ws, es) && i < |ws| && Pushing(ws[i], t) && !Registered(ws[i], t)
    ensures j < i && Displaces(ws[j], es[j], t)
  {
    RunInv(ws, es, i);
    assert Accounted(ws[i], t);
    j := Displaced(ws, es, i, t);
  }

  // ---- serialised role updates ----

  predicate InCluster(w: World, s: Id, cluster: string) {
    s in w.conns && w.conns[s].cluster == cluster
  }

  /** No session of the cluster acts while another of it is in the middle of an update; connecting is
      free, and loops end when they will. */
  predicate Alone(w: World, e: Event, cluster: string) {
    || e.Connect? || e.LoopReturns? || e.LoopExits?
    || (InCluster(w, e.s, cluster) ==>
          forall t :: t in w.conns && t != e.s && w.conns[t].cluster == cluster ==> !Mid(w.conns[t].pc))
  }

  /** The cluster's role updates are serialised; other clusters do as they like. */
  ghost predicate Serial(ws: seq<World>, es: seq<Event>, cluster: string) {
    Run(ws, es) && forall i :: 0 <= i < |es| ==> Alone(ws[i], es[i], cluster)
  }

  ghost predicate Prompt(w: World, cluster: string) {
    && (forall s :: s in w.late ==> !InCluster(w, s, cluster))
    && (forall s :: InCluster(w, s, cluster) && w.conns[s].pc == Starting ==> LeadsNow(w, s))
  }

  /** A step of another cluster's session leaves this cluster's leaders alone. */
  lemma ElsewhereKeeps(w: World, e: Event, cluster: string, s: Id)
    requires Enabled(w, e) && !InCluster(w, e.s, cluster) && InCluster(w, s, cluster) && LeadsNow(w, s)
    ensures LeadsNow(Apply(w, e), s)
  {
  }

  /** A loop of the cluster is started only while its session leads. */
  lemma NoneLate(w: World, e: Event, cluster: string, s: Id)
    requires Prompt(w, cluster) && Enabled(w, e) && w.late <= w.conns.Keys && s in Apply(w, e).late
    ensures !InCluster(Apply(w, e), s, cluster)
  {
    if s in w.late { assert !InCluster(w, s, cluster); } else { assert e == StartLoop(s); }
  }

  lemma StartingLeads(w: World, e: Event, cluster: string, s: Id)
    requires Prompt(w, cluster) && Enabled(w, e) && Alone(w, e, cluster)
    requires InCluster(Apply(w, e), s, cluster) && Apply(w, e).conns[s].pc == Starting
    ensures LeadsNow(Apply(w, e), s)
  {
    if e.LoopReturns? || e.LoopExits? || e.Connect? {
      assert LeadsNow(w, s);
    } else if s != e.s {
      assert LeadsNow(w, s) && Mid(w.conns[s].pc);
      ElsewhereKeeps(w, e, cluster, s);
    }
  }

  lemma PromptEvent(w: World, e: Event, cluster: string)
    requires Inv(w) && Prompt(w, cluster) && Enabled(w, e) && Alone(w, e, cluster)
    ensures Prompt(Apply(w, e), cluster)
  {
    var w' := Apply(w, e);
    forall s | s in w'.late ensures !InCluster(w', s, cluster) { NoneLate(w, e, cluster, s); }
    forall s | InCluster(w', s, cluster) && w'.conns[s].pc == Starting ensures LeadsNow(w', s) {
      StartingLeads(w, e, cluster, s);
    }
  }

  lemma {:induction false} SerialPrompt(ws: seq<World>, es: seq<Event>, cluster: string, i: nat)
    requires Serial(ws, es, cluster) && i < |ws|
    ensures Prompt(ws[i], cluster)
  {
    if i > 0 {
      SerialPrompt(ws, es, cluster, i - 1);
      RunInv(ws, es, i - 1);
      assert StepAt(ws, es, i - 1);
      PromptEvent(ws[i - 1], es[i - 1], cluster);
    }
  }

  /** With a cluster's role updates serialised, every registered session of it that pushes between
      them leads, whatever happens in other clusters. */
  lemma SerialPusherLeads(ws: seq<World>, es: seq<Event>, i: nat, t: Id)
    requires Run(ws, es) && i < |ws| && Registered(ws[i], t) && Pushing(ws[i], t)
    requires Serial(ws, es, ws[i].conns[t].cluster) && Quiet(ws[i], ws[i].conns[t].cluster)
    ensures LeadsNow(ws[i], t)
  {
    SerialPrompt(ws, es, ws[i].conns[t].cluster, i);
    PusherLeads(ws, es, i, t);
  }

  // ---- the two windows ----

  ghost predicate Reachable(w: World) {
    exists ws, es :: Run(ws, es) && ws[|es|] == w
  }

  lemma Reach(w: World, e: Event)
    requires Reachable(w) && Enabled(w, e)
    ensures Reachable(Apply(w, e))
  {
    var ws, es :| Run(ws, es) && ws[|es|] == w;
    var ws', es' := ws + [Apply(w, e)], es + [e];
    forall i | 0 <= i < |es'| ensures StepAt(ws', es', i) {
      if i < |es| { assert StepAt(ws, es, i); }
    }
    assert Run(ws', es') && ws'[|es'|] == Apply(w, e);
  }

  /** A session connects, claims the lead, and is about to start its loop. */
  function Poised(w: World, s: Id, instance: string, now: int): World {
    var reg := WithClaim(w.reg, "c", instance, Leader, s, now);
    w.(reg := reg, conns := w.conns[s := Conn("c", instance, Starting, NEW_SESSION)])
  }

  lemma ReachPoised(w: World, s: Id, instance: string, now: int)
    requires Reachable(w) && s !in w.conns && s !in w.late
    requires Demoted(w.reg, "c", instance, Leader) == {} && Regular(w.reg)
    ensures Reachable(Poised(w, s, instance, now))
  {
    Reach(w, Connect(s, "c", instance));
    var w1 := Apply(w, Connect(s, "c", instance));
    Reach(w1, Claim(s, Leader, now));
    var w2 := Apply(w1, Claim(s, Leader, now));
    PutRegular(w.reg, "c", instance, Leader, s, now);
    assert w2.late == w.late;
    Reach(w2, EndDemotion(s));
    var w3 := Apply(w2, EndDemotion(s));
    Reach(w3, Check(s));
    assert Apply(w3, Check(s)) == Poised(w, s, instance, now);
  }

  /** A session poised to start does so while it leads. */
  lemma ReachStarted(w: World, s: Id)
    requires Reachable(w) && s in w.conns && w.conns[s].pc == Starting && w.conns[s].push == NEW_SESSION && LeadsNow(w, s)
    ensures Reachable(w.(conns := w.conns[s := w.conns[s].(pc := Idle, push := Started(NEW_SESSION))]))
  {
    Reach(w, StartLoop(s));
  }

  /** First window: between a session's check that it leads and the start of its loop another
      claim slips in; both then push, the first without leading, and no step is left to stop it. */
  lemma LateStart() returns (w: World)
    ensures Reachable(w) && w.conns.Keys == {1, 2} && w.conns[1].pc == Idle && w.conns[2].pc == Idle
    ensures Registered(w, 1) && Pushing(w, 1) && !LeadsNow(w, 1)
    ensures Registered(w, 2) && Pushing(w, 2) && LeadsNow(w, 2)
  {
    assert Run([EMPTY], []) && [EMPTY][0] == EMPTY;
    assert Reachable(EMPTY);
    ReachPoised(EMPTY, 1, "a", 1);
    var w1 := Poised(EMPTY, 1, "a", 1);
    Overtaken(w1);
    var w2 := Overtaking(w1, Starting);
    ReachStarted(w2, 2);
    var w3 := w2.(conns := w2.conns[2 := w2.conns[2].(pc := Idle, push := Started(NEW_SESSION))]);
    Reach(w3, StartLoop(1));
    w := Apply(w3, StartLoop(1));
    assert 1 in w.conns[1].push.running && 1 in w.conns[2].push.running;
  }

  /** Session 2 of another instance takes the lead while session 1 is poised. */
  function Overtaking(w: World, pc: Pc): World {
    w.(reg := WithClaim(w.reg, "c", "b", Leader, 2, 2), conns := w.conns[2 := Conn("c", "b", pc, NEW_SESSION)])
  }

  lemma OvertakingClaims(w: World)
    requires w == Poised(EMPTY, 1, "a", 1) && Reachable(w)
    ensures Reachable(Overtaking(w, Demoting(Leader, {1})))
  {
    Reach(w, Connect(2, "c", "b"));
    var w1 := Apply(w, Connect(2, "c", "b"));
    assert "a" in w.reg["c"];
    assert Demoted(w1.reg, "c", "b", Leader) == {1};
    Reach(w1, Claim(2, Leader, 2));
    assert Apply(w1, Claim(2, Leader, 2)) == Overtaking(w, Demoting(Leader, {1}));
  }

  lemma OvertakingDemotes(w: World)
    requires w == Poised(EMPTY, 1, "a", 1) && Reachable(Overtaking(w, Demoting(Leader, {1})))
    ensures Reachable(Overtaking(w, Demoting(Leader, {})))
  {
    var w1 := Overtaking(w, Demoting(Leader, {1}));
    Reach(w1, StopDemoted(2, 1));
    assert w1.conns[1 := w1.conns[1]] == w1.conns && w1.late == {};
    assert StopLoop(w1, 1) == w1 && w1.conns[2].pc.todo - {1} == {};
    assert Apply(w1, StopDemoted(2, 1)) == Overtaking(w, Demoting(Leader, {}));
  }

  lemma Overtaken(w: World)
    requires w == Poised(EMPTY, 1, "a", 1) && Reachable(w)
    ensures Reachable(Overtaking(w, Starting))
  {
    OvertakingClaims(w);
    OvertakingDemotes(w);
    Reach(Overtaking(w, Demoting(Leader, {})), EndDemotion(2));
    var w1 := Overtaking(w, Checking);
    assert Apply(Overtaking(w, Demoting(Leader, {})), EndDemotion(2)) == w1;
    Reach(w1, Check(2));
    assert Apply(w1, Check(2)) == Overtaking(w, Starting);
  }

  /** Second window: an instance reconnects. Its old session is not in the demoted list, so its
      loop goes on beside the new session's until its own stream ends. */
  lemma ReconnectOverlap() returns (w: World)
    ensures Reachable(w) && w.conns.Keys == {1, 2} && w.conns[1].pc == Idle && w.conns[2].pc == Idle
    ensures w.conns[1].instance == w.conns[2].instance && w.late == {}
    ensures Pushing(w, 1) && !Registered(w, 1)
    ensures Pushing(w, 2) && LeadsNow(w, 2)
  {
    assert Run([EMPTY], []) && [EMPTY][0] == EMPTY;
    assert Reachable(EMPTY);
    ReachPoised(EMPTY, 1, "a", 1);
    var w1 := Poised(EMPTY, 1, "a", 1);
    ReachStarted(w1, 1);
    var w2 := w1.(conns := w1.conns[1 := w1.conns[1].(pc := Idle, push := Started(NEW_SESSION))]);
    ReachPoised(w2, 2, "a", 2);
    var w3 := Poised(w2, 2, "a", 2);
    ReachStarted(w3, 2);
    w := w3.(conns := w3.conns[2 := w3.conns[2].(pc := Idle, push := Started(NEW_SESSION))]);
    assert 1 in w.conns[1].push.running && 1 in w.conns[2].push.running;
  }
}
