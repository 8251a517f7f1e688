/** Per-(distribution, cluster) status rows, written by the push loop and by member reports,
    each through an unprotected read followed by a write. */
module DistStatus {
  import opened Names

  datatype Status = Unset | Synced | Pending | Error
  datatype Row = Row(status: Status, hash: string, error: string)

  const NO_ROW := Row(Unset, "", "")

  /** The part of a render the status rows depend on: an error text per failed distribution. */
  datatype Render = Render(hash: string, matched: seq<string>, errors: map<string, string>)
  datatype Report = Report(applied: string, applyError: string)

  /** What a status write does to the row it read. */
  datatype Mutation =
    | RenderFailed(error: string)
    | Pushed(hash: string)
    | Applied(hash: string)
    | ApplyFailed(hash: string, error: string)

  function Mutate(row: Row, m: Mutation): Row {
    match m
    case RenderFailed(error) => row.(status := Error, error := error)
    case Pushed(hash) =>
      if row.hash == hash && (row.status == Synced || row.status == Error) then row
      else row.(status := Pending, error := "")
    case Applied(hash) => Row(Synced, hash, "")
    case ApplyFailed(hash, error) => Row(Error, hash, error)
  }

  function ErrorOf(res: Render, name: string): string {
    if name in res.errors then res.errors[name] else ""
  }

  type Rows = map<string, Row>

  function Current(rows: Rows, name: string): Row {
    if name in rows then rows[name] else NO_ROW
  }

  /** `setClusterStatus` without interference: no write when nothing changes. */
  function SetRow(rows: Rows, name: string, m: Mutation): Rows {
    var entry := Mutate(Current(rows, name), m);
    if entry == Current(rows, name) then rows else rows[name := entry]
  }

  // ---- calls that do not overlap ----

  function PushMutation(res: Render, name: string): Mutation {
    if ErrorOf(res, name) != "" then RenderFailed(ErrorOf(res, name)) else Pushed(res.hash)
  }

  function ReportMutation(rep: Report): Mutation {
    if rep.applyError != "" then ApplyFailed(rep.applied, rep.applyError) else Applied(rep.applied)
  }

  function PushedRow(rows: Rows, res: Render, name: string): Rows {
    if name in res.matched then
      SetRow(rows, name, PushMutation(res, name))
    else rows - {name}
  }

  /** `markPushed` over the first `j` listed distributions. */
  function AfterPush(rows: Rows, res: Render, listed: seq<string>, j: nat := |listed|): Rows
    requires j <= |listed|
  {
    if j == 0 then rows else PushedRow(AfterPush(rows, res, listed, j - 1), res, listed[j - 1])
  }

  function ReportedRow(rows: Rows, last: Render, rep: Report, name: string): Rows {
    if ErrorOf(last, name) != "" then rows
    else SetRow(rows, name, ReportMutation(rep))
  }

  /** `markReported` over the first `j` matched distributions; `known` are those still in the table. */
  function AfterReport(rows: Rows, last: Render, rep: Report, known: set<string>, j: nat := |last.matched|): Rows
    requires j <= |last.matched|
  {
    if j == 0 || rep.applied == "" || rep.applied != last.hash then rows
    else
      var before := AfterReport(rows, last, rep, known, j - 1);
      var name := last.matched[j - 1];
      if name in known then ReportedRow(before, last, rep, name) else before
  }

  /** The status table of one cluster. */
  class StatusTable {
    var rows: Rows

    constructor ()
      ensures rows == map[]
    {
      rows := map[];
    }

    method SetClusterStatus(name: string, m: Mutation)
      modifies this
      ensures rows == SetRow(old(rows), name, m)
    {
      var entry := if name in rows then rows[name] else NO_ROW;
      var before := entry;
      entry := Mutate(entry, m);
      if before == entry {
        return;
      }
      rows := rows[name := entry];
    }

    method MarkPushed(res: Render, listed: seq<string>)
      modifies this
      ensures rows == AfterPush(old(rows), res, listed)
    {
      ghost var start := rows;
      for i := 0 to |listed|
        invariant rows == AfterPush(start, res, listed, i)
      {
        var name := listed[i];
        if name in res.matched && ErrorOf(res, name) != "" {
          SetClusterStatus(name, RenderFailed(ErrorOf(res, name)));
        } else if name in res.matched {
          SetClusterStatus(name, Pushed(res.hash));
        } else {
          rows := rows - {name};
        }
      }
    }

    method MarkReported(last: Render, rep: Report, known: set<string>)
      modifies this
      ensures rows == AfterReport(old(rows), last, rep, known)
    {
      if rep.applied == "" || rep.applied != last.hash {
        return;
      }
      ghost var start := rows;
      for i := 0 to |last.matched|
        invariant rows == AfterReport(start, last, rep, known, i)
      {
        var name := last.matched[i];
        if ErrorOf(last, name) == "" && name in known {
          if rep.applyError != "" {
            SetClusterStatus(name, ApplyFailed(rep.applied, rep.applyError));
          } else {
            SetClusterStatus(name, Applied(rep.applied));
          }
        }
      }
    }
  }

  /** A row after a push: gone if the distribution does not match, else settled for this hash. */
  predicate Settled(rows: Rows, res: Render, name: string) {
    if name !in res.matched then name !in rows
    else
      && name in rows
      && (if ErrorOf(res, name) != "" then rows[name].status == Error && rows[name].error == ErrorOf(res, name)
          else
            || (rows[name].status == Pending && rows[name].error == "")
            || (rows[name].hash == res.hash && (rows[name].status == Synced || rows[name].status == Error)))
  }

  lemma PushedRowSettles(rows: Rows, res: Render, name: string)
    ensures Settled(PushedRow(rows, res, name), res, name)
    ensures forall n :: n != name ==> Current(PushedRow(rows, res, name), n) == Current(rows, n)
    ensures forall n :: n != name ==> (n in PushedRow(rows, res, name) <==> n in rows)
  {
  }

  lemma SettledStays(rows: Rows, res: Render, name: string)
    requires Settled(rows, res, name)
    ensures PushedRow(rows, res, name) == rows
  {
  }

  /** After `markPushed` every listed distribution has a row iff it matched, and a Synced row is at
      the pushed hash. */
  lemma {:induction false} PushSettles(rows: Rows, res: Render, listed: seq<string>, j: nat, k: nat)
    requires k < j <= |listed|
    ensures
      var after := AfterPush(rows, res, listed, j);
      && Settled(after, res, listed[k])
      && (listed[k] in after <==> listed[k] in res.matched)
      && (listed[k] in after && after[listed[k]].status == Synced ==> after[listed[k]].hash == res.hash)
  {
    var before := AfterPush(rows, res, listed, j - 1);
    PushedRowSettles(before, res, listed[j - 1]);
    if listed[k] != listed[j - 1] { PushSettles(rows, res, listed, j - 1, k); }
  }

  /** A second `markPushed` of the same render changes nothing. */
  lemma PushIdempotent(rows: Rows, res: Render, listed: seq<string>)
    ensures AfterPush(AfterPush(rows, res, listed), res, listed) == AfterPush(rows, res, listed)
  {
    NothingToDo(rows, res, listed, |listed|);
  }

  lemma {:induction false} NothingToDo(rows: Rows, res: Render, listed: seq<string>, j: nat)
    requires j <= |listed|
    ensures AfterPush(AfterPush(rows, res, listed), res, listed, j) == AfterPush(rows, res, listed)
  {
    if j > 0 {
      NothingToDo(rows, res, listed, j - 1);
      PushSettles(rows, res, listed, |listed|, j - 1);
      SettledStays(AfterPush(rows, res, listed), res, listed[j - 1]);
    }
  }

  /** A report for another snapshot than the last pushed one is ignored. */
  lemma StaleReportIgnored(rows: Rows, last: Render, rep: Report, known: set<string>)
    requires rep.applied != last.hash || rep.applied == ""
    ensures AfterReport(rows, last, rep, known) == rows
  {
  }

  /** A render error outlives its cause: once the distribution renders cleanly again to the hash the
      row already carries, the row keeps the old error until the member reports. */
  lemma RenderErrorLingers(hash: string, name: string, error: string)
    requires error != ""
    ensures
      var rows := map[name := Row(Synced, hash, "")];
      var failed := AfterPush(rows, Render(hash, [name], map[name := error]), [name]);
      var mended := AfterPush(failed, Render(hash, [name], map[]), [name]);
      mended == map[name := Row(Error, hash, error)]
  {
    var rows := map[name := Row(Synced, hash, "")];
    var bad, good := Render(hash, [name], map[name := error]), Render(hash, [name], map[]);
    assert AfterPush(rows, bad, [name]) == PushedRow(AfterPush(rows, bad, [name], 0), bad, name);
    assert AfterPush(rows, bad, [name]) == map[name := Row(Error, hash, error)];
    assert AfterPush(map[name := Row(Error, hash, error)], good, [name]) ==
           PushedRow(AfterPush(map[name := Row(Error, hash, error)], good, [name], 0), good, name);
  }

  /** A clean push leaves each listed row as `Pushed` would, however often it is listed. */
  lemma {:induction false} CleanPushAt(rows: Rows, res: Render, listed: seq<string>, name: string, j: nat)
    requires j <= |listed| && name in res.matched && ErrorOf(res, name) == ""
    ensures Current(AfterPush(rows, res, listed, j), name) ==
            if name in listed[..j] then Mutate(Current(rows, name), Pushed(res.hash)) else Current(rows, name)
  {
    if j > 0 {
      CleanPushAt(rows, res, listed, name, j - 1);
      assert listed[..j] == listed[..j - 1] + [listed[j - 1]];
    }
  }

  /** A clean push over the listed distributions clears a failed row exactly when the hash the row
      records is not the one pushed; otherwise it leaves the row as it is. */
  lemma CleanPushClears(rows: Rows, res: Render, listed: seq<string>, name: string)
    requires name in listed && name in res.matched && ErrorOf(res, name) == "" && Current(rows, name).status == Error
    ensures
      Current(AfterPush(rows, res, listed), name) ==
      if Current(rows, name).hash == res.hash then Current(rows, name) else Row(Pending, Current(rows, name).hash, "")
  {
    CleanPushAt(rows, res, listed, name, |listed|);
    assert listed[..|listed|] == listed;
  }

  /** The render's error for the name, if it has one that says something. */
  predicate FailsWith(res: Render, name: string, error: string) {
    name in res.errors && res.errors[name] == error && error != ""
  }

  predicate Clean(res: Render, name: string) {
    name in res.errors ==> res.errors[name] == ""
  }

  lemma {:induction false} ReportAt(rows: Rows, last: Render, rep: Report, known: set<string>, name: string, j: nat)
    requires rep.applied == last.hash != "" && j <= |last.matched|
    ensures
      var after := AfterReport(rows, last, rep, known, j);
      if name in last.matched[..j] && name in known && Clean(last, name) then
        name in after && after[name] == if rep.applyError == "" then Row(Synced, last.hash, "") else Row(Error, last.hash, rep.applyError)
      else (name in after <==> name in rows) && Current(after, name) == Current(rows, name)
  {
    if j > 0 {
      ReportAt(rows, last, rep, known, name, j - 1);
      assert last.matched[..j] == last.matched[..j - 1] + [last.matched[j - 1]];
    }
  }

  /** A report on the last snapshot sent settles each row of a distribution that is known and that this
      snapshot matched without a render error: Synced at its hash, or Error with what the member says.
      Every other row stays as it was. */
  lemma ReportExact(rows: Rows, last: Render, rep: Report, known: set<string>, name: string)
    requires rep.applied == last.hash != ""
    ensures
      var after := AfterReport(rows, last, rep, known);
      if name in last.matched && name in known && Clean(last, name) then
        name in after && after[name] == if rep.applyError == "" then Row(Synced, last.hash, "") else Row(Error, last.hash, rep.applyError)
      else (name in after <==> name in rows) && (name in rows ==> after[name] == rows[name])
  {
    ReportAt(rows, last, rep, known, name, |last.matched|);
    assert last.matched[..|last.matched|] == last.matched;
  }

  /** The row a push leaves for a matched distribution, from the row before. */
  predicate PushLeaves(res: Render, name: string, before: Row, after: Row) {
    if Clean(res, name) then
      if before.hash == res.hash && before.status in {Synced, Error} then after == before
      else after == Row(Pending, before.hash, "")
    else after.status == Error && after.hash == before.hash && FailsWith(res, name, after.error)
  }

  lemma {:induction false} PushAt(rows: Rows, res: Render, listed: seq<string>, name: string, j: nat)
    requires j <= |listed|
    ensures
      var after := AfterPush(rows, res, listed, j);
      if name !in listed[..j] then (name in after <==> name in rows) && Current(after, name) == Current(rows, name)
      else if name !in res.matched then name !in after
      else name in after && PushLeaves(res, name, Current(rows, name), after[name])
  {
    if j > 0 {
      PushAt(rows, res, listed, name, j - 1);
      assert listed[..j] == listed[..j - 1] + [listed[j - 1]];
    }
  }

  /** A push drops the rows of listed distributions that it did not match, marks those that failed to
      render, leaves a row already settled at its hash, and makes every other matched row Pending. */
  lemma PushExact(rows: Rows, res: Render, listed: seq<string>, name: string)
    ensures
      var after := AfterPush(rows, res, listed);
      if name !in listed then (name in after <==> name in rows) && (name in rows ==> after[name] == rows[name])
      else if name !in res.matched then name !in after
      else name in after && PushLeaves(res, name, if name in rows then rows[name] else Row(Unset, "", ""), after[name])
  {
    PushAt(rows, res, listed, name, |listed|);
    assert listed[..|listed|] == listed;
  }

  // ---- overlapping calls ----

  type Id = nat

  /** Where a push loop stands in `markPushed`: at a distribution, or between reading and writing its row. */
  datatype PushPc =
    | Waiting
    | Marking(res: Render, listed: seq<string>, k: nat)
    | MarkRead(res: Render, listed: seq<string>, k: nat, before: Row)

  /** Where a receive loop stands: with a report in hand, in `markReported`, or between reading and writing a row. */
  datatype ReceivePc =
    | Listening
    | Received(rep: Report)
    | Reporting(last: Render, rep: Report, k: nat)
    | ReportRead(last: Render, rep: Report, k: nat, before: Row)

  datatype Session = Session(last: Option<Render>, recv: ReceivePc)

  /** A push loop; a session may have a cancelled one still under way beside its successor. */
  datatype Loop = Loop(session: Id, pc: PushPc)

  /** One cluster's rows under any number of sessions and push loops. `pushed`, `received` and `accepted`
      remember every render sent, every report received, and each report that passed the hash test
      together with the render it was tested against. */
  datatype World = World(
    rows: Rows, sessions: map<Id, Session>, loops: map<Id, Loop>,
    pushed: set<Render>, received: set<Report>, accepted: set<(Report, Render)>)

  const EMPTY := World(map[], map[], map[], {}, {}, {})

  datatype Event =
    | Open(s: Id)
    | Start(l: Id, s: Id)
    | Push(l: Id, res: Render, listed: seq<string>, send: bool)
    | PushStep(l: Id)
    | PushCommit(l: Id)
    | PushFails(l: Id)
    | Receive(s: Id, rep: Report)
    | TakeLast(s: Id)
    | ReportStep(s: Id)
    | ReportCommit(s: Id)
    | ReportFails(s: Id)
    | Delete(name: string)

  predicate LoopEvent(e: Event) {
    e.Push? || e.PushStep? || e.PushCommit? || e.PushFails?
  }

  /** A render that is not sent has the hash of the one last sent. */
  predicate LoopEnabled(w: World, e: Event)
    requires LoopEvent(e)
  {
    && e.l in w.loops && w.loops[e.l].session in w.sessions
    && var pc, last := w.loops[e.l].pc, w.sessions[w.loops[e.l].session].last;
       match e
       case Push(_, res, _, send) => pc == Waiting && (!send ==> last.Some? && last.value.hash == res.hash)
       case PushStep(_) => pc.Marking?
       case PushCommit(_) => pc.MarkRead?
       case PushFails(_) => pc.MarkRead? || (pc.Marking? && pc.k < |pc.listed|)
  }

  predicate Enabled(w: World, e: Event) {
    if e.Open? then e.s !in w.sessions
    else if e.Start? then e.l !in w.loops && e.s in w.sessions
    else if e.Delete? then true
    else if LoopEvent(e) then LoopEnabled(w, e)
    else
      e.s in w.sessions &&
      var recv := w.sessions[e.s].recv;
      match e
      case Receive(_, _) => recv == Listening
      case TakeLast(_) => recv.Received?
      case ReportStep(_) => recv.Reporting?
      case ReportCommit(_) => recv.ReportRead?
      case ReportFails(_) => recv.ReportRead? || (recv.Reporting? && recv.k < |recv.last.matched|)
  }

  /** Writing back the row that was read, unless the mutation left it as it was. */
  function WriteBack(rows: Rows, name: string, before: Row, m: Mutation): Rows {
    var entry := Mutate(before, m);
    if entry == before then rows else rows[name := entry]
  }

  function WithPush(w: World, l: Id, pc: PushPc): World
    requires l in w.loops
  {
    w.(loops := w.loops[l := w.loops[l].(pc := pc)])
  }

  function WithRecv(w: World, s: Id, pc: ReceivePc): World
    requires s in w.sessions
  {
    w.(sessions := w.sessions[s := w.sessions[s].(recv := pc)])
  }

  function StepPush(w: World, l: Id): World
    requires l in w.loops && w.loops[l].pc.Marking?
  {
    var pc := w.loops[l].pc;
    if pc.k >= |pc.listed| then WithPush(w, l, Waiting)
    else
      var name := pc.listed[pc.k];
      if name in pc.res.matched then WithPush(w, l, MarkRead(pc.res, pc.listed, pc.k, Current(w.rows, name)))
      else WithPush(w.(rows := w.rows - {name}), l, Marking(pc.res, pc.listed, pc.k + 1))
  }

  function CommitPush(w: World, l: Id): World
    requires l in w.loops && w.loops[l].pc.MarkRead?
  {
    var pc := w.loops[l].pc;
    if pc.k >= |pc.listed| then w
    else
      var name := pc.listed[pc.k];
      WithPush(w.(rows := WriteBack(w.rows, name, pc.before, PushMutation(pc.res, name))), l, Marking(pc.res, pc.listed, pc.k + 1))
  }

  function StepReport(w: World, s: Id): World
    requires s in w.sessions && w.sessions[s].recv.Reporting?
  {
    var pc := w.sessions[s].recv;
    if pc.k >= |pc.last.matched| then WithRecv(w, s, Listening)
    else
      var name := pc.last.matched[pc.k];
      if ErrorOf(pc.last, name) != "" then WithRecv(w, s, Reporting(pc.last, pc.rep, pc.k + 1))
      else WithRecv(w, s, ReportRead(pc.last, pc.rep, pc.k, Current(w.rows, name)))
  }

  /** The receiver looks up what was last sent on its stream, and tests the report against it. */
  function Take(w: World, s: Id): World
    requires s in w.sessions && w.sessions[s].recv.Received?
  {
    var rep, last := w.sessions[s].recv.rep, w.sessions[s].last;
    if last.None? || rep.applied == "" || rep.applied != last.value.hash then WithRecv(w, s, Listening)
    else WithRecv(w.(accepted := w.accepted + {(rep, last.value)}), s, Reporting(last.value, rep, 0))
  }

  function Apply(w: World, e: Event): World
    requires Enabled(w, e)
  {
    match e
    case Open(s) => w.(sessions := w.sessions[s := Session(None, Listening)])
    case Start(l, s) => w.(loops := w.loops[l := Loop(s, Waiting)])
    case Push(l, res, listed, send) =>
      var s := w.loops[l].session;
      var w' := WithPush(w, l, Marking(res, listed, 0));
      if send then w'.(sessions := w.sessions[s := w.sessions[s].(last := Some(res))], pushed := w.pushed + {res}) else w'
    case PushStep(l) => StepPush(w, l)
    case PushCommit(l) => CommitPush(w, l)
    case PushFails(l) => WithPush(w, l, Marking(w.loops[l].pc.res, w.loops[l].pc.listed, w.loops[l].pc.k + 1))
    case Receive(s, rep) => WithRecv(w.(received := w.received + {rep}), s, Received(rep))
    case TakeLast(s) => Take(w, s)
    case ReportStep(s) => StepReport(w, s)
    case ReportCommit(s) =>
      var pc := w.sessions[s].recv;
      if pc.k >= |pc.last.matched| then w
      else
        WithRecv(w.(rows := WriteBack(w.rows, pc.last.matched[pc.k], pc.before, ReportMutation(pc.rep))), s,
                 Reporting(pc.last, pc.rep, pc.k + 1))
    case ReportFails(s) => WithRecv(w, s, Reporting(w.sessions[s].recv.last, w.sessions[s].recv.rep, w.sessions[s].recv.k + 1))
    case Delete(name) => w.(rows := w.rows - {name})
  }

  /** The report says without error that the snapshot of this hash is applied, and that snapshot, as it
      was sent, matched the distribution without a render error. */
  predicate Vouches(a: (Report, Render), name: string, hash: string) {
    && a.0.applyError == "" && a.0.applied == hash == a.1.hash && hash != ""
    && name in a.1.matched && ErrorOf(a.1, name) == ""
  }

  ghost predicate Backed(w: World, name: string, hash: string) {
    exists a :: a in w.accepted && a.0 in w.received && a.1 in w.pushed && Vouches(a, name, hash)
  }

  ghost predicate Honest(w: World, name: string, row: Row) {
    row.status == Synced ==> row.error == "" && Backed(w, name, row.hash)
  }

  ghost predicate SessionSound(w: World, ss: Session) {
    && (ss.last.Some? ==> ss.last.value in w.pushed)
    && (ss.recv.Received? ==> ss.recv.rep in w.received)
    && (ss.recv.Reporting? || ss.recv.ReportRead? ==> Taken(w, ss.recv.rep, ss.recv.last))
    && (ss.recv.ReportRead? ==>
          && ss.recv.k < |ss.recv.last.matched|
          && ErrorOf(ss.recv.last, ss.recv.last.matched[ss.recv.k]) == ""
          && Honest(w, ss.recv.last.matched[ss.recv.k], ss.recv.before))
  }

  ghost predicate LoopSound(w: World, pc: PushPc) {
    pc.MarkRead? ==> pc.k < |pc.listed| && Honest(w, pc.listed[pc.k], pc.before)
  }

  predicate Taken(w: World, rep: Report, last: Render) {
    (rep, last) in w.accepted && rep in w.received && last in w.pushed && rep.applied == last.hash != ""
  }

  ghost predicate Truthful(w: World) {
    && (forall n :: n in w.rows ==> Honest(w, n, w.rows[n]))
    && (forall s :: s in w.sessions ==> SessionSound(w, w.sessions[s]))
    && (forall l :: l in w.loops ==> LoopSound(w, w.loops[l].pc))
  }

  /** What was received, sent and accepted stays so. */
  ghost predicate Remembers(w: World, w': World) {
    w.pushed <= w'.pushed && w.received <= w'.received && w.accepted <= w'.accepted
  }

  lemma HonestKept(w: World, w': World, name: string, row: Row)
    requires Remembers(w, w') && Honest(w, name, row)
    ensures Honest(w', name, row)
  {
    if row.status == Synced {
      var a :| a in w.accepted && a.0 in w.received && a.1 in w.pushed && Vouches(a, name, row.hash);
      assert a in w'.accepted;
    }
  }

  lemma SoundKept(w: World, w': World, ss: Session)
    requires Remembers(w, w') && SessionSound(w, ss)
    ensures SessionSound(w', ss)
  {
    if ss.recv.ReportRead? { HonestKept(w, w', ss.recv.last.matched[ss.recv.k], ss.recv.before); }
  }

  lemma LoopKept(w: World, w': World, pc: PushPc)
    requires Remembers(w, w') && LoopSound(w, pc)
    ensures LoopSound(w', pc)
  {
    if pc.MarkRead? { HonestKept(w, w', pc.listed[pc.k], pc.before); }
  }

  /** A push never makes a row Synced that was not. */
  lemma PushHonest(w: World, res: Render, name: string, before: Row)
    requires Honest(w, name, before)
    ensures Honest(w, name, Mutate(before, PushMutation(res, name)))
  {
  }

  /** A report makes a row Synced only for a distribution the tested snapshot matched cleanly. */
  lemma ReportHonest(w: World, last: Render, rep: Report, name: string, before: Row)
    requires Taken(w, rep, last) && name in last.matched && ErrorOf(last, name) == ""
    ensures Honest(w, name, Mutate(before, ReportMutation(rep)))
  {
    if rep.applyError == "" { assert Vouches((rep, last), name, rep.applied); }
  }

  /** Rows, sessions and loops that a step leaves alone stay truthful; the rest is checked separately. */
  lemma TruthfulStep(w: World, w': World, name: string, s: Id, l: Id)
    requires Truthful(w) && Remembers(w, w')
    requires forall n :: n in w'.rows && n != name ==> n in w.rows && w'.rows[n] == w.rows[n]
    requires name in w'.rows ==> Honest(w', name, w'.rows[name])
    requires forall t :: t in w'.sessions && t != s ==> t in w.sessions && w'.sessions[t] == w.sessions[t]
    requires s in w'.sessions ==> SessionSound(w', w'.sessions[s])
    requires forall m :: m in w'.loops && m != l ==> m in w.loops && w'.loops[m] == w.loops[m]
    requires l in w'.loops ==> LoopSound(w', w'.loops[l].pc)
    ensures Truthful(w')
  {
    forall n | n in w'.rows ensures Honest(w', n, w'.rows[n]) {
      if n != name { HonestKept(w, w', n, w.rows[n]); }
    }
    forall t | t in w'.sessions ensures SessionSound(w', w'.sessions[t]) {
      if t != s { SoundKept(w, w', w.sessions[t]); }
    }
    forall m | m in w'.loops ensures LoopSound(w', w'.loops[m].pc) {
      if m != l { LoopKept(w, w', w.loops[m].pc); }
    }
  }

  lemma PushTruthful(w: World, e: Event)
    requires Truthful(w) && LoopEvent(e) && Enabled(w, e)
    ensures Truthful(Apply(w, e))
  {
    var w' := Apply(w, e);
    var pc, s := w.loops[e.l].pc, w.loops[e.l].session;
    assert LoopSound(w, pc) && SessionSound(w, w.sessions[s]);
    LoopKept(w, w', pc);
    SoundKept(w, w', w.sessions[s]);
    var name := if pc.Waiting? || pc.k >= |pc.listed| then "" else pc.listed[pc.k];
    if name in w.rows { HonestKept(w, w', name, w.rows[name]); }
    if e.PushCommit? { PushHonest(w', pc.res, name, pc.before); }
    TruthfulStep(w, w', name, s, e.l);
  }

  lemma ReceiveTruthful(w: World, e: Event)
    requires Truthful(w) && Enabled(w, e) && (e.Receive? || e.TakeLast?)
    ensures Truthful(Apply(w, e))
  {
    var w' := Apply(w, e);
    assert SessionSound(w, w.sessions[e.s]);
    SoundKept(w, w', w.sessions[e.s]);
    forall n | n in w'.rows ensures Honest(w', n, w'.rows[n]) { HonestKept(w, w', n, w.rows[n]); }
    forall l | l in w'.loops ensures LoopSound(w', w'.loops[l].pc) { LoopKept(w, w', w.loops[l].pc); }
    forall s | s in w'.sessions ensures SessionSound(w', w'.sessions[s]) {
      if s != e.s { SoundKept(w, w', w.sessions[s]); }
    }
  }

  lemma ReportTruthful(w: World, e: Event)
    requires Truthful(w) && Enabled(w, e) && (e.ReportStep? || e.ReportCommit? || e.ReportFails?)
    ensures Truthful(Apply(w, e))
  {
    var w' := Apply(w, e);
    var ss := w.sessions[e.s];
    assert SessionSound(w, ss);
    var name := if ss.recv.k < |ss.recv.last.matched| then ss.recv.last.matched[ss.recv.k] else "";
    if name in w.rows { HonestKept(w, w', name, w.rows[name]); }
    if e.ReportCommit? { ReportHonest(w', ss.recv.last, ss.recv.rep, name, ss.recv.before); }
    forall n | n in w'.rows ensures Honest(w', n, w'.rows[n]) {
      if n != name { HonestKept(w, w', n, w.rows[n]); }
    }
    forall l | l in w'.loops ensures LoopSound(w', w'.loops[l].pc) { LoopKept(w, w', w.loops[l].pc); }
    forall s | s in w'.sessions ensures SessionSound(w', w'.sessions[s]) {
      if s != e.s { SoundKept(w, w', w.sessions[s]); }
    }
  }

  lemma OtherTruthful(w: World, e: Event)
    requires Truthful(w) && Enabled(w, e) && (e.Open? || e.Start? || e.Delete?)
    ensures Truthful(Apply(w, e))
  {
    var w' := Apply(w, e);
    forall n | n in w'.rows ensures Honest(w', n, w'.rows[n]) { HonestKept(w, w', n, w.rows[n]); }
    forall s | s in w'.sessions ensures SessionSound(w', w'.sessions[s]) {
      if s in w.sessions { SoundKept(w, w', w.sessions[s]); }
    }
    forall l | l in w'.loops ensures LoopSound(w', w'.loops[l].pc) {
      if l in w.loops { LoopKept(w, w', w.loops[l].pc); }
    }
  }

  lemma TruthfulEvent(w: World, e: Event)
    requires Truthful(w) && Enabled(w, e)
    ensures Truthful(Apply(w, e))
  {
    if LoopEvent(e) {
      PushTruthful(w, e);
    } else if e.Open? || e.Start? || e.Delete? {
      OtherTruthful(w, e);
    } else if e.Receive? || e.TakeLast? {
      ReceiveTruthful(w, e);
    } else {
      ReportTruthful(w, e);
    }
  }

  ghost predicate StepAt(ws: seq<World>, es: seq<Event>, i: nat)
    requires i < |es| < |ws|
  {
    Enabled(ws[i], es[i]) && ws[i + 1] == Apply(ws[i], es[i])
  }

  ghost predicate Run(ws: seq<World>, es: seq<Event>) {
    |ws| == |es| + 1 && ws[0] == EMPTY && forall i :: 0 <= i < |es| ==> StepAt(ws, es, i)
  }

  lemma {:induction false} RunTruthful(ws: seq<World>, es: seq<Event>, i: nat)
    requires Run(ws, es) && i < |ws|
    ensures Truthful(ws[i])
  {
    if i > 0 {
      RunTruthful(ws, es, i - 1);
      assert StepAt(ws, es, i - 1);
      TruthfulEvent(ws[i - 1], es[i - 1]);
    }
  }

  /** However reads and writes of the rows interleave, a Synced row carries no error, and its hash is
      that of a snapshot which was sent, matched the distribution without a render error, and was
      reported applied without error. */
  lemma SyncedIsTruthful(ws: seq<World>, es: seq<Event>, i: nat, name: string)
    requires Run(ws, es) && i < |ws|
    requires name in ws[i].rows && ws[i].rows[name].status == Synced
    ensures ws[i].rows[name].error == ""
    ensures exists rep, sent ::
              && rep in ws[i].received && sent in ws[i].pushed
              && rep.applyError == "" && rep.applied == sent.hash == ws[i].rows[name].hash
              && name in sent.matched && ErrorOf(sent, name) == ""
  {
    RunTruthful(ws, es, i);
    var w := ws[i];
    assert Honest(w, name, w.rows[name]);
    var a :| a in w.accepted && a.0 in w.received && a.1 in w.pushed && Vouches(a, name, w.rows[name].hash);
    var rep, sent := a.0, a.1;
    assert rep in w.received && sent in w.pushed;
  }

  /** A push loop that is not interleaved does to each row what `markPushed` does. */
  lemma UndisturbedPush(w: World, l: Id)
    requires Enabled(w, PushStep(l)) && w.loops[l].pc.k < |w.loops[l].pc.listed|
    ensures
      var pc := w.loops[l].pc;
      var name := pc.listed[pc.k];
      var w1 := Apply(w, PushStep(l));
      var w2 := if name in pc.res.matched then Apply(w1, PushCommit(l)) else w1;
      && w2.rows == PushedRow(w.rows, pc.res, name)
      && w2.loops[l].pc == Marking(pc.res, pc.listed, pc.k + 1)
  {
  }

  /** A receive loop that is not interleaved does to each row what `markReported` does. */
  lemma UndisturbedReport(w: World, s: Id)
    requires s in w.sessions && w.sessions[s].recv.Reporting? && w.sessions[s].recv.k < |w.sessions[s].recv.last.matched|
    ensures
      var pc := w.sessions[s].recv;
      var name := pc.last.matched[pc.k];
      var w1 := Apply(w, ReportStep(s));
      var w2 := if ErrorOf(pc.last, name) == "" then Apply(w1, ReportCommit(s)) else w1;
      && w2.rows == ReportedRow(w.rows, pc.last, pc.rep, name)
      && w2.sessions[s].recv == Reporting(pc.last, pc.rep, pc.k + 1)
  {
  }

  // ---- every run can be carried on to settled rows ----

  ghost function LastOf(ws: seq<World>): World
    requires ws != []
  {
    ws[|ws| - 1]
  }

  lemma Extend(ws: seq<World>, es: seq<Event>, e: Event) returns (ws': seq<World>, es': seq<Event>)
    requires Run(ws, es) && Enabled(LastOf(ws), e)
    ensures Run(ws', es') && ws <= ws' && es <= es' && LastOf(ws') == Apply(LastOf(ws), e)
  {
    ws', es' := ws + [Apply(LastOf(ws), e)], es + [e];
    forall i | 0 <= i < |es'| ensures StepAt(ws', es', i) {
      if i < |es| { assert StepAt(ws, es, i); }
    }
  }

  /** The receive loop has done the first `k` rows of what `markReported` does to `rows`. */
  ghost predicate InReport(w: World, s: Id, rows: Rows, last: Render, rep: Report, k: nat) {
    && s in w.sessions && w.sessions[s].recv == Reporting(last, rep, k)
    && k <= |last.matched| && w.rows == AfterReport(rows, last, rep, Elements(last.matched), k)
  }

  lemma ReportOne(ws: seq<World>, es: seq<Event>, s: Id, rows: Rows, last: Render, rep: Report, k: nat)
    returns (ws': seq<World>, es': seq<Event>)
    requires Run(ws, es) && InReport(LastOf(ws), s, rows, last, rep, k) && k < |last.matched| && rep.applied == last.hash != ""
    ensures Run(ws', es') && ws <= ws' && es <= es' && InReport(LastOf(ws'), s, rows, last, rep, k + 1)
  {
    var name := last.matched[k];
    ElementsContents(last.matched, |last.matched|);
    assert name in Elements(last.matched);
    UndisturbedReport(LastOf(ws), s);
    ws', es' := Extend(ws, es, ReportStep(s));
    if ErrorOf(last, name) == "" { ws', es' := Extend(ws', es', ReportCommit(s)); }
  }

  /** The receive loop goes through the rest of the rows without interference. */
  lemma {:induction false} ReportRest(ws: seq<World>, es: seq<Event>, s: Id, rows: Rows, last: Render, rep: Report, k: nat)
    returns (ws': seq<World>, es': seq<Event>)
    requires Run(ws, es) && InReport(LastOf(ws), s, rows, last, rep, k) && rep.applied == last.hash != ""
    ensures Run(ws', es') && ws <= ws' && es <= es' && InReport(LastOf(ws'), s, rows, last, rep, |last.matched|)
    decreases |last.matched| - k
  {
    ws', es' := ws, es;
    if k < |last.matched| {
      ws', es' := ReportOne(ws, es, s, rows, last, rep, k);
      ws', es' := ReportRest(ws', es', s, rows, last, rep, k + 1);
    }
  }

  /** From every state of every run in which the session listens, a report on what it was last sent,
      taken without interference, leaves the rows as `markReported` would. */
  lemma ReportSettles(ws: seq<World>, es: seq<Event>, s: Id, rep: Report) returns (ws': seq<World>, es': seq<Event>)
    requires Run(ws, es) && s in LastOf(ws).sessions && LastOf(ws).sessions[s].recv == Listening
    requires LastOf(ws).sessions[s].last.Some? && rep.applied == LastOf(ws).sessions[s].last.value.hash != ""
    ensures Run(ws', es') && ws <= ws' && es <= es'
    ensures
      var last := LastOf(ws).sessions[s].last.value;
      LastOf(ws').rows == AfterReport(LastOf(ws).rows, last, rep, Elements(last.matched))
  {
    ws', es' := Extend(ws, es, Receive(s, rep));
    ws', es' := Extend(ws', es', TakeLast(s));
    var last := LastOf(ws).sessions[s].last.value;
    ws', es' := ReportRest(ws', es', s, LastOf(ws).rows, last, rep, 0);
  }

  /** The push loop has done the first `k` rows of what `markPushed` does to `rows`. */
  ghost predicate InPush(w: World, l: Id, rows: Rows, res: Render, listed: seq<string>, k: nat) {
    && l in w.loops && w.loops[l].session in w.sessions && w.loops[l].pc == Marking(res, listed, k)
    && k <= |listed| && w.rows == AfterPush(rows, res, listed, k)
  }

  lemma PushOne(ws: seq<World>, es: seq<Event>, l: Id, rows: Rows, res: Render, listed: seq<string>, k: nat)
    returns (ws': seq<World>, es': seq<Event>)
    requires Run(ws, es) && InPush(LastOf(ws), l, rows, res, listed, k) && k < |listed|
    ensures Run(ws', es') && ws <= ws' && es <= es' && InPush(LastOf(ws'), l, rows, res, listed, k + 1)
  {
    UndisturbedPush(LastOf(ws), l);
    ws', es' := Extend(ws, es, PushStep(l));
    if listed[k] in res.matched { ws', es' := Extend(ws', es', PushCommit(l)); }
  }

  lemma {:induction false} PushRest(ws: seq<World>, es: seq<Event>, l: Id, rows: Rows, res: Render, listed: seq<string>, k: nat)
    returns (ws': seq<World>, es': seq<Event>)
    requires Run(ws, es) && InPush(LastOf(ws), l, rows, res, listed, k)
    ensures Run(ws', es') && ws <= ws' && es <= es' && InPush(LastOf(ws'), l, rows, res, listed, |listed|)
    decreases |listed| - k
  {
    ws', es' := ws, es;
    if k < |listed| {
      ws', es' := PushOne(ws, es, l, rows, res, listed, k);
      ws', es' := PushRest(ws', es', l, rows, res, listed, k + 1);
    }
  }

  /** From every state of every run in which a push loop waits, a render it sends, marked without
      interference, leaves the rows as `markPushed` would, and the loop waiting again. */
  lemma PushSettlesRows(ws: seq<World>, es: seq<Event>, l: Id, res: Render, listed: seq<string>)
    returns (ws': seq<World>, es': seq<Event>)
    requires Run(ws, es) && l in LastOf(ws).loops && LastOf(ws).loops[l].pc == Waiting && LastOf(ws).loops[l].session in LastOf(ws).sessions
    ensures Run(ws', es') && ws <= ws' && es <= es'
    ensures LastOf(ws').rows == AfterPush(LastOf(ws).rows, res, listed)
    ensures l in LastOf(ws').loops && LastOf(ws').loops[l].pc == Waiting
  {
    ws', es' := Extend(ws, es, Push(l, res, listed, true));
    ws', es' := PushRest(ws', es', l, LastOf(ws).rows, res, listed, 0);
    ws', es' := Extend(ws', es', PushStep(l));
  }

  /** A write that fails leaves the rows alone, and the loop goes on with the next distribution; a
      deleted distribution loses its row. */
  lemma FailuresSkip(w: World, l: Id, s: Id, name: string)
    ensures l in w.loops && w.loops[l].session in w.sessions && w.loops[l].pc.MarkRead? ==>
              && Enabled(w, PushFails(l)) && Apply(w, PushFails(l)).rows == w.rows
              && Apply(w, PushFails(l)).loops[l].pc == Marking(w.loops[l].pc.res, w.loops[l].pc.listed, w.loops[l].pc.k + 1)
    ensures s in w.sessions && w.sessions[s].recv.ReportRead? ==>
              && Enabled(w, ReportFails(s)) && Apply(w, ReportFails(s)).rows == w.rows
              && Apply(w, ReportFails(s)).sessions[s].recv == Reporting(w.sessions[s].recv.last, w.sessions[s].recv.rep, w.sessions[s].recv.k + 1)
    ensures Enabled(w, Delete(name)) && Apply(w, Delete(name)).rows == w.rows - {name}
  {
  }

  /** So the machine does reach Synced rows: one for each distribution that any snapshot matched cleanly. */
  lemma SyncedIsReached(sent: Render, name: string) returns (ws: seq<World>, es: seq<Event>)
    requires sent.hash != "" && name in sent.matched && Clean(sent, name)
    ensures Run(ws, es) && name in LastOf(ws).rows && LastOf(ws).rows[name] == Row(Synced, sent.hash, "")
  {
    ws, es := [EMPTY], [];
    ws, es := Extend(ws, es, Open(0));
    ws, es := Extend(ws, es, Start(0, 0));
    ws, es := Extend(ws, es, Push(0, sent, [], true));
    var rep := Report(sent.hash, "");
    var rows := LastOf(ws).rows;
    ws, es := ReportSettles(ws, es, 0, rep);
    ElementsContents(sent.matched, |sent.matched|);
    ReportExact(rows, sent, rep, Elements(sent.matched), name);
  }
}
