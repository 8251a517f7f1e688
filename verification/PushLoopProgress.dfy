/** What the push loop does get done: every run can be carried on by the loop's own steps to a finished
    pass, a notified change is pushed with its trace, the ticker resends, and an ended loop stays silent. */
module PushLoopProgress {
  import opened Names
  import opened PushLoop

  ghost function LastOf(ws: seq<World>): World
    requires ws != []
  {
    ws[|ws| - 1]
  }

  ghost predicate Continues(
    render: seq<string> -> string, ws: seq<World>, es: seq<Event>, ws': seq<World>, es': seq<Event>)
  {
    Run(render, ws', es') && ws != [] && ws <= ws' && es <= es'
  }

  lemma Extend(render: seq<string> -> string, ws: seq<World>, es: seq<Event>, e: Event)
    returns (ws': seq<World>, es': seq<Event>)
    requires Run(render, ws, es) && Enabled(LastOf(ws), e)
    ensures Continues(render, ws, es, ws', es') && |LastOf(ws).writtenAt| == |LastOf(ws).tables|
    ensures LastOf(ws') == Apply(render, LastOf(ws), e)
  {
    RunInv(render, ws, es, |ws| - 1);
    ws', es' := ws + [Apply(render, LastOf(ws), e)], es + [e];
    forall i | 0 <= i < |es'| ensures StepAt(render, ws', es', i) {
      if i < |es| { assert StepAt(render, ws, es, i); }
    }
  }

  // ---- one pass ----

  /** The two worlds agree on everything but the loop's position and the clock. */
  predicate SameBeside(w: World, w': World) {
    && w'.tables == w.tables && w'.ch == w.ch && w'.traceID == w.traceID && w'.last == w.last && w'.sent == w.sent
    && w'.force == w.force && w'.woke == w.woke
  }

  /** In the middle of a pass that began in world `w`, with the first tables read. */
  predicate Midway(w: World, w': World, k: nat) {
    && SameBeside(w, w') && k <= |w.tables|
    && w'.pc.Reading? && w'.pc.pass.waitCh == w.ch && w'.pc.pass.trace == w.traceID && w'.pc.pass.got == w.tables[..k]
  }

  lemma {:induction false} ReadOn(render: seq<string> -> string, ws: seq<World>, es: seq<Event>, w: World, k: nat)
    returns (ws': seq<World>, es': seq<Event>)
    requires Run(render, ws, es) && Midway(w, LastOf(ws), k)
    ensures Continues(render, ws, es, ws', es') && Midway(w, LastOf(ws'), |w.tables|)
    decreases |w.tables| - k
  {
    ws', es' := ws, es;
    if k < |w.tables| {
      ws', es' := Extend(render, ws, es, ReadTable);
      assert w.tables[..k + 1] == w.tables[..k] + [w.tables[k]];
      ws', es' := ReadOn(render, ws', es', w, k + 1);
    }
  }

  /** What a pass that began in `w` leaves: the tables' render is remembered; it was sent if it differs
      from what was remembered or a resend was due, and carries the trace if a notification woke the loop
      and it differs. */
  predicate PassDone(render: seq<string> -> string, w: World, w': World) {
    var hash := render(w.tables);
    var changed := w.last != Some(hash);
    && w'.tables == w.tables && w'.ch == w.ch && w'.traceID == w.traceID && !w'.force && !w'.woke
    && w'.last == Some(hash)
    && w'.pc.Blocked? && w'.pc.rendered == Some(hash) && w'.pc.pass.waitCh == w.ch
    && w'.sent == if changed || w.force then w.sent + [Message(hash, if changed && w.woke then w.traceID else "")] else w.sent
  }

  /** The pass that began in `w` has compared, and what it has to send is on its way out or sent. */
  predicate Compared(render: seq<string> -> string, w: World, w': World, sent: seq<Message>, last: Option<string>) {
    && SameBeside(w.(sent := sent, last := last), w') && PassOf(w'.pc).Some? && w'.pc.pass.waitCh == w.ch && w'.pc.pass.trace == w.traceID
    && if w'.pc.Sending? then w'.pc.hash == render(w.tables) && w'.pc.changed == (w.last != Some(render(w.tables)))
       else w'.pc == Marking(w'.pc.pass, render(w.tables))
  }

  lemma FinishSend(render: seq<string> -> string, ws: seq<World>, es: seq<Event>, w: World)
    returns (ws': seq<World>, es': seq<Event>)
    requires Run(render, ws, es) && Compared(render, w, LastOf(ws), w.sent, w.last)
    requires LastOf(ws).pc.Sending? <==> w.last != Some(render(w.tables)) || w.force
    ensures Continues(render, ws, es, ws', es') && LastOf(ws').pc.Marking?
    ensures
      var hash, changed := render(w.tables), w.last != Some(render(w.tables));
      Compared(render, w, LastOf(ws'),
               if changed || w.force then w.sent + [Message(hash, if changed && w.woke then w.traceID else "")] else w.sent, Some(hash))
  {
    ws', es' := ws, es;
    if LastOf(ws).pc.Sending? {
      ws', es' := Extend(render, ws', es', Send);
      ws', es' := Extend(render, ws', es', Remember);
    }
  }

  lemma Finish(render: seq<string> -> string, ws: seq<World>, es: seq<Event>, w: World)
    returns (ws': seq<World>, es': seq<Event>)
    requires Run(render, ws, es) && Midway(w, LastOf(ws), |w.tables|)
    ensures Continues(render, ws, es, ws', es') && PassDone(render, w, LastOf(ws'))
  {
    assert w.tables[..|w.tables|] == w.tables;
    ws', es' := Extend(render, ws, es, Compare);
    ws', es' := Extend(render, ws', es', Compare);
    ws', es' := FinishSend(render, ws', es', w);
    ws', es' := Extend(render, ws', es', MarkPushed);
  }

  /** From the top of its loop, in any run, an undisturbed pass ends so. */
  lemma PassCompletes(render: seq<string> -> string, ws: seq<World>, es: seq<Event>)
    returns (ws': seq<World>, es': seq<Event>)
    requires Run(render, ws, es) && LastOf(ws).pc == Top
    ensures Continues(render, ws, es, ws', es') && PassDone(render, LastOf(ws), LastOf(ws'))
  {
    var w := LastOf(ws);
    ws', es' := Extend(render, ws, es, TakeChannel);
    ws', es' := Extend(render, ws', es', PeekTrace);
    assert w.tables[..0] == [];
    ws', es' := ReadOn(render, ws', es', w, 0);
    ws', es' := Finish(render, ws', es', w);
  }

  /** A loop that has just started pushes the render of the tables, without a trace, unless its session
      was last sent that very render. */
  lemma StartPushes(render: seq<string> -> string, w: World) returns (ws: seq<World>, es: seq<Event>)
    requires Initial(w)
    ensures Run(render, ws, es) && ws[0] == w && LastOf(ws).last == Some(render(w.tables))
    ensures LastOf(ws).sent == if w.last == Some(render(w.tables)) then [] else [Message(render(w.tables), "")]
  {
    ws, es := PassCompletes(render, [w], []);
  }

  // ---- what wakes the loop ----

  lemma {:induction false} BlockedFlags(render: seq<string> -> string, ws: seq<World>, es: seq<Event>, i: nat)
    requires Run(render, ws, es) && i < |ws| && ws[i].pc.Blocked?
    ensures !ws[i].force && !ws[i].woke
  {
    assert StepAt(render, ws, es, i - 1);
    if ws[i - 1].pc.Blocked? { BlockedFlags(render, ws, es, i - 1); }
  }

  /** A table is written and the change is notified under a trace while the loop is blocked: it wakes,
      and pushes the new render under that trace exactly when it differs from what was sent last. */
  lemma ChangeIsPushed(render: seq<string> -> string, ws: seq<World>, es: seq<Event>, k: nat, value: string, trace: string)
    returns (ws': seq<World>, es': seq<Event>)
    requires Run(render, ws, es) && LastOf(ws).pc.Blocked? && k < |LastOf(ws).tables|
    ensures Continues(render, ws, es, ws', es')
    ensures
      var w, w' := LastOf(ws), LastOf(ws');
      var hash := render(w.tables[k := value]);
      && w'.tables == w.tables[k := value] && w'.last == Some(hash)
      && w'.sent == if w.last == Some(hash) then w.sent else w.sent + [Message(hash, trace)]
  {
    RunInv(render, ws, es, |ws| - 1);
    BlockedFlags(render, ws, es, |ws| - 1);
    ws', es' := Extend(render, ws, es, Write(k, value));
    ws', es' := Extend(render, ws', es', SetTrace(trace));
    ws', es' := Extend(render, ws', es', Notify);
    ws', es' := Extend(render, ws', es', WakeByNotify);
    ws', es' := PassCompletes(render, ws', es');
  }

  /** The ticker makes a blocked loop send the render of the tables, changed or not, without a trace. */
  lemma TickerResends(render: seq<string> -> string, ws: seq<World>, es: seq<Event>)
    returns (ws': seq<World>, es': seq<Event>)
    requires Run(render, ws, es) && LastOf(ws).pc.Blocked?
    ensures Continues(render, ws, es, ws', es')
    ensures LastOf(ws').sent == LastOf(ws).sent + [Message(render(LastOf(ws).tables), "")]
  {
    BlockedFlags(render, ws, es, |ws| - 1);
    ws', es' := Extend(render, ws, es, WakeByTicker);
    ws', es' := PassCompletes(render, ws', es');
  }

  /** A pass whose read fails sends nothing and remembers nothing. */
  lemma FailedPass(render: seq<string> -> string, ws: seq<World>, es: seq<Event>, i: nat)
    requires Run(render, ws, es) && i < |es| && es[i] == ReadFails
    ensures ws[i + 1].pc.Blocked? && ws[i + 1].pc.rendered == None
    ensures ws[i + 1].sent == ws[i].sent && ws[i + 1].last == ws[i].last && !ws[i + 1].force && !ws[i + 1].woke
  {
    assert StepAt(render, ws, es, i);
  }

  /** A failed send and a cancellation end the loop: nothing is sent or remembered ever after. */
  lemma {:induction false} EndedIsSilent(render: seq<string> -> string, ws: seq<World>, es: seq<Event>, i: nat, j: nat)
    requires Run(render, ws, es) && i < j < |ws| && (es[i] == SendFails || es[i] == Cancel)
    ensures ws[j].pc == Exited && ws[j].sent == ws[i].sent && ws[j].last == ws[i].last
  {
    assert StepAt(render, ws, es, j - 1);
    if j > i + 1 { EndedIsSilent(render, ws, es, i, j - 1); }
  }

  // ---- the record of times is that of the events ----

  lemma {:induction false} ClockIsIndex(render: seq<string> -> string, ws: seq<World>, es: seq<Event>, i: nat)
    requires Run(render, ws, es) && i < |ws|
    ensures ws[i].clock == i + 1
  {
    if i > 0 {
      ClockIsIndex(render, ws, es, i - 1);
      assert StepAt(render, ws, es, i - 1);
    }
  }

  /** The recorded time is that of the latest notification. */
  lemma {:induction false} NotifiedExact(render: seq<string> -> string, ws: seq<World>, es: seq<Event>, i: nat)
    requires Run(render, ws, es) && i < |ws|
    ensures
      var n := ws[i].notifiedAt;
      n <= i && (n > 0 ==> es[n - 1] == Notify) && forall e :: n <= e < i ==> es[e] != Notify
  {
    if i > 0 {
      NotifiedExact(render, ws, es, i - 1);
      ClockIsIndex(render, ws, es, i - 1);
      assert StepAt(render, ws, es, i - 1);
    }
  }

  /** The recorded time is that of the latest write to the table, which still holds what was written. */
  lemma {:induction false} WrittenExact(render: seq<string> -> string, ws: seq<World>, es: seq<Event>, i: nat, k: nat)
    requires Run(render, ws, es) && i < |ws| && k < |ws[0].tables|
    ensures |ws[i].tables| == |ws[i].writtenAt| == |ws[0].tables|
    ensures
      var n := ws[i].writtenAt[k];
      && n <= i && (forall e :: n <= e < i ==> !(es[e].Write? && es[e].k == k))
      && (if n == 0 then ws[i].tables[k] == ws[0].tables[k] else es[n - 1] == Write(k, ws[i].tables[k]))
  {
    if i > 0 {
      WrittenExact(render, ws, es, i - 1, k);
      ClockIsIndex(render, ws, es, i - 1);
      assert StepAt(render, ws, es, i - 1);
    }
  }

  /** In terms of the events alone: a loop blocked on an open channel after a successful render has read
      every table after the latest notification, and remembers the render of what it read. */
  lemma NoNotificationMissed(render: seq<string> -> string, ws: seq<World>, es: seq<Event>, i: nat, e: nat, k: nat)
    returns (r: nat)
    requires Run(render, ws, es) && i < |ws| && e < i && es[e] == Notify && k < |ws[i].tables|
    requires ws[i].pc.Blocked? && ws[i].pc.rendered.Some? && !ClosedAt(ws[i].ch, ws[i].pc.pass.waitCh)
    ensures e < r < i && es[r] == ReadTable && PassOf(ws[r].pc).Some? && |ws[r].pc.pass.got| == k
    ensures k < |ws[r].tables| && |ws[i].pc.pass.got| == |ws[i].tables|
    ensures ws[i].pc.pass.got[k] == ws[r].tables[k] && ws[i].last == Some(render(ws[i].pc.pass.got))
  {
    NoLostWakeup(render, ws, es, i);
    NotifiedExact(render, ws, es, i);
    RunInv(render, ws, es, i);
    assert ReadSound(ws[i], ws[i].pc.pass, k);
    ClockIsIndex(render, ws, es, i);
    r := ws[i].pc.pass.readAt[k] - 1;
    ReadExact(render, ws, es, i, k);
  }

  predicate HasRead(pc: Pc, k: nat) {
    PassOf(pc).Some? && k < |pc.pass.got| == |pc.pass.readAt|
  }

  /** What a pass has read it had read before, or reads in this step. */
  lemma ReadStep(render: seq<string> -> string, w: World, e: Event, k: nat)
    requires Inv(render, w) && Enabled(w, e) && HasRead(Apply(render, w, e).pc, k)
    ensures
      var p' := Apply(render, w, e).pc.pass;
      || (HasRead(w.pc, k) && p'.got[k] == w.pc.pass.got[k] && p'.readAt[k] == w.pc.pass.readAt[k])
      || (!HasRead(w.pc, k) && e == ReadTable && PassOf(w.pc).Some? && |w.pc.pass.got| == k < |w.tables| &&
          p'.got[k] == w.tables[k] && p'.readAt[k] == w.clock)
  {
  }

  lemma {:induction false} ReadExact(render: seq<string> -> string, ws: seq<World>, es: seq<Event>, i: nat, k: nat)
    requires Run(render, ws, es) && i < |ws| && PassOf(ws[i].pc).Some?
    requires k < |ws[i].pc.pass.got| == |ws[i].pc.pass.readAt|
    ensures ws[i].pc.pass.readAt[k] > 0
    ensures
      var r := ws[i].pc.pass.readAt[k] - 1;
      && r < i && es[r] == ReadTable && PassOf(ws[r].pc).Some? && |ws[r].pc.pass.got| == k
      && k < |ws[r].tables| && ws[r].tables[k] == ws[i].pc.pass.got[k]
  {
    assert StepAt(render, ws, es, i - 1);
    ClockIsIndex(render, ws, es, i - 1);
    RunInv(render, ws, es, i - 1);
    ReadStep(render, ws[i - 1], es[i - 1], k);
    if HasRead(ws[i - 1].pc, k) { ReadExact(render, ws, es, i - 1, k); }
  }
}
