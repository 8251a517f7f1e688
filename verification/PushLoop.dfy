/** The close-and-replace notifier and one push loop: no change notification is ever lost.
    Table writes, notifications, ticks and the loop's own steps interleave freely. */
module PushLoop {
  import opened Names

  /** Channels are numbered; a channel is closed once a later one is installed. */
  predicate ClosedAt(ch: nat, c: nat) {
    c < ch
  }

  /** What closing the channel and installing another leaves in place. */
  function Replaced(ch: nat): nat {
    ch + 1
  }

  /** The notifier object; the loop's world below holds its two fields and takes the same steps. */
  class Notifier {
    var ch: nat
    var traceID: string

    constructor ()
      ensures ch == 0 && traceID == ""
    {
      ch, traceID := 0, "";
    }

    /** Every channel handed out before is closed, and the next one handed out is not. */
    method Notify()
      modifies this`ch
      ensures ch == Replaced(old(ch)) && !Closed(ch) && forall c: nat :: c <= old(ch) ==> Closed(c)
    {
      ch := Replaced(ch);
    }

    method NotifyWithTrace(trace: string)
      modifies this
      ensures ch == Replaced(old(ch)) && traceID == trace && forall c: nat :: c <= old(ch) ==> Closed(c)
    {
      traceID := trace;
      Notify();
    }

    predicate Closed(c: nat)
      reads this
    {
      ClosedAt(ch, c)
    }

    /** The channel the next Notify will close. */
    method Wait() returns (c: nat)
      ensures c == ch && !Closed(c)
    {
      c := ch;
    }
  }

  /** One pass of the loop: the channel it waits on, when it took it, and what it has read. */
  datatype Pass = Pass(waitCh: nat, since: nat, trace: string, got: seq<string>, readAt: seq<nat>)

  datatype Pc =
    | Top
    | Peeking(pass: Pass)
    | Reading(pass: Pass)
    | Comparing(pass: Pass, hash: string)
    | Sending(pass: Pass, hash: string, changed: bool)
    | Storing(pass: Pass, hash: string)
    | Marking(pass: Pass, hash: string)
    | Blocked(pass: Pass, rendered: Option<string>)
    | Exited

  datatype Message = Message(hash: string, trace: string)

  /** The tables a render reads, the notifier, the session's remembered hash, the messages sent,
      and when each table was last written and the notifier last fired. */
  datatype World = World(
    tables: seq<string>, ch: nat, traceID: string, last: Option<string>, sent: seq<Message>,
    force: bool, woke: bool, pc: Pc, clock: nat, writtenAt: seq<nat>, notifiedAt: nat)

  datatype Event =
    | Write(k: nat, value: string)
    | SetTrace(trace: string)
    | Notify
    | TakeChannel
    | PeekTrace
    | ReadTable
    | ReadFails
    | Compare
    | Send
    | SendFails
    | Remember
    | MarkPushed
    | WakeByNotify
    | WakeByTicker
    | Cancel

  predicate Enabled(w: World, e: Event) {
    match e
    case Write(k, _) => k < |w.tables|
    case SetTrace(_) => true
    case Notify => true
    case TakeChannel => w.pc == Top
    case PeekTrace => w.pc.Peeking?
    case ReadTable => w.pc.Reading? && |w.pc.pass.got| < |w.tables|
    case ReadFails => w.pc.Reading?
    case Compare => w.pc.Comparing? || (w.pc.Reading? && |w.pc.pass.got| == |w.tables|)
    case Send => w.pc.Sending?
    case SendFails => w.pc.Sending?
    case Remember => w.pc.Storing?
    case MarkPushed => w.pc.Marking?
    case WakeByNotify => w.pc.Blocked? && ClosedAt(w.ch, w.pc.pass.waitCh)
    case WakeByTicker => w.pc.Blocked?
    case Cancel => w.pc.Blocked?
  }

  /** One step; `render` gives the snapshot hash from the tables' contents. */
  function Act(render: seq<string> -> string, w: World, e: Event): World
    requires Enabled(w, e) && |w.writtenAt| == |w.tables|
  {
    match e
    case Write(k, value) => w.(tables := w.tables[k := value], writtenAt := w.writtenAt[k := w.clock])
    case SetTrace(trace) => w.(traceID := trace)
    case Notify => w.(ch := Replaced(w.ch), notifiedAt := w.clock)
    case TakeChannel => w.(pc := Peeking(Pass(w.ch, w.clock, "", [], [])))
    case PeekTrace => w.(pc := Reading(w.pc.pass.(trace := w.traceID)))
    case ReadTable =>
      var p := w.pc.pass;
      w.(pc := Reading(p.(got := p.got + [w.tables[|p.got|]], readAt := p.readAt + [w.clock])))
    case ReadFails => Block(w, w.pc.pass, None)
    case Compare =>
      if w.pc.Reading? then w.(pc := Comparing(w.pc.pass, render(w.pc.pass.got)))
      else
        var changed := w.last != Some(w.pc.hash);
        w.(pc := if changed || w.force then Sending(w.pc.pass, w.pc.hash, changed) else Marking(w.pc.pass, w.pc.hash))
    case Send =>
      var trace := if w.woke && w.pc.changed then w.pc.pass.trace else "";
      w.(sent := w.sent + [Message(w.pc.hash, trace)], pc := Storing(w.pc.pass, w.pc.hash))
    case SendFails => w.(pc := Exited)
    case Remember => w.(last := Some(w.pc.hash), pc := Marking(w.pc.pass, w.pc.hash))
    case MarkPushed => Block(w, w.pc.pass, Some(w.pc.hash))
    case WakeByNotify => w.(pc := Top, woke := true)
    case WakeByTicker => w.(pc := Top, force := true)
    case Cancel => w.(pc := Exited)
  }

  function Block(w: World, p: Pass, rendered: Option<string>): World {
    w.(force := false, woke := false, pc := Blocked(p, rendered))
  }

  function Apply(render: seq<string> -> string, w: World, e: Event): World
    requires Enabled(w, e) && |w.writtenAt| == |w.tables|
  {
    var w' := Act(render, w, e);
    w'.(clock := w.clock + 1)
  }

  predicate Initial(w: World) {
    w.pc == Top && w.sent == [] && !w.force && !w.woke && w.clock == 1
    && w.notifiedAt == 0 && |w.writtenAt| == |w.tables| && forall k :: 0 <= k < |w.writtenAt| ==> w.writtenAt[k] == 0
  }

  // ---- the invariant ----

  /** Entry `k` of a pass was read after the channel was taken, and is the table's content unless
      the table was written since. */
  predicate ReadSound(w: World, p: Pass, k: nat)
    requires k < |p.got| == |p.readAt| && |p.got| <= |w.tables| == |w.writtenAt|
  {
    p.since < p.readAt[k] < w.clock && (w.writtenAt[k] < p.readAt[k] ==> p.got[k] == w.tables[k])
  }

  ghost predicate PassSound(w: World, p: Pass) {
    && p.waitCh <= w.ch && p.since < w.clock
    && (p.waitCh == w.ch ==> w.notifiedAt < p.since)
    && |p.got| == |p.readAt| && |p.got| <= |w.tables| == |w.writtenAt|
    && forall k :: 0 <= k < |p.got| ==> ReadSound(w, p, k)
  }

  ghost predicate Whole(render: seq<string> -> string, w: World, p: Pass, hash: string) {
    |p.got| == |w.tables| && hash == render(p.got)
  }

  ghost predicate PcSound(render: seq<string> -> string, w: World) {
    match w.pc
    case Top => true
    case Peeking(p) => PassSound(w, p) && p.got == []
    case Reading(p) => PassSound(w, p)
    case Comparing(p, hash) => PassSound(w, p) && Whole(render, w, p, hash)
    case Sending(p, hash, changed) => PassSound(w, p) && Whole(render, w, p, hash) && changed == (w.last != Some(hash))
    case Storing(p, hash) => PassSound(w, p) && Whole(render, w, p, hash)
    case Marking(p, hash) => PassSound(w, p) && Whole(render, w, p, hash) && w.last == Some(hash)
    case Blocked(p, rendered) =>
      PassSound(w, p) && (rendered.Some? ==> Whole(render, w, p, rendered.value) && w.last == rendered)
    case Exited => true
  }

  /** The remembered hash is that of the latest message, once one was sent and remembered. */
  predicate Remembered(w: World) {
    if w.pc.Storing? then w.sent != [] && w.sent[|w.sent| - 1].hash == w.pc.hash
    else w.sent != [] ==> w.last == Some(w.sent[|w.sent| - 1].hash)
  }

  /** A traced message announces a change. */
  ghost predicate TracesTruthful(sent: seq<Message>) {
    forall i :: 0 < i < |sent| && sent[i].trace != "" ==> sent[i].hash != sent[i - 1].hash
  }

  ghost predicate Inv(render: seq<string> -> string, w: World) {
    && w.notifiedAt < w.clock && |w.writtenAt| == |w.tables|
    && (forall k :: 0 <= k < |w.writtenAt| ==> w.writtenAt[k] < w.clock)
    && PcSound(render, w) && Remembered(w) && TracesTruthful(w.sent)
  }

  function PassOf(pc: Pc): Option<Pass> {
    if pc == Top || pc == Exited then None else Some(pc.pass)
  }

  /** A pass stays sound while the rest of the world moves on. */
  lemma PassKept(render: seq<string> -> string, w: World, e: Event, p: Pass)
    requires Inv(render, w) && Enabled(w, e) && PassSound(w, p)
    ensures PassSound(Apply(render, w, e), p)
  {
    var w' := Apply(render, w, e);
    forall k | 0 <= k < |p.got| ensures ReadSound(w', p, k) { assert ReadSound(w, p, k); }
  }

  lemma ReadKept(render: seq<string> -> string, w: World)
    requires Inv(render, w) && Enabled(w, ReadTable)
    ensures PassSound(Apply(render, w, ReadTable), Apply(render, w, ReadTable).pc.pass)
  {
    var p, w' := w.pc.pass, Apply(render, w, ReadTable);
    var p' := w'.pc.pass;
    forall k | 0 <= k < |p'.got| ensures ReadSound(w', p', k) {
      if k < |p.got| { assert ReadSound(w, p, k); }
    }
  }

  predicate FromOutside(e: Event) {
    e.Write? || e.SetTrace? || e.Notify?
  }

  lemma OutsideKept(render: seq<string> -> string, w: World, e: Event)
    requires Inv(render, w) && Enabled(w, e) && FromOutside(e)
    ensures PcSound(render, Apply(render, w, e))
  {
    if PassOf(w.pc).Some? { PassKept(render, w, e, w.pc.pass); }
    assert Apply(render, w, e).pc == w.pc;
  }

  lemma ForwardKept(render: seq<string> -> string, w: World, e: Event)
    requires Inv(render, w) && Enabled(w, e) && !FromOutside(e) && e != ReadTable && e != PeekTrace
    ensures PcSound(render, Apply(render, w, e))
  {
    if PassOf(w.pc).Some? { PassKept(render, w, e, w.pc.pass); }
  }

  lemma PcKept(render: seq<string> -> string, w: World, e: Event)
    requires Inv(render, w) && Enabled(w, e)
    ensures PcSound(render, Apply(render, w, e))
  {
    if FromOutside(e) {
      OutsideKept(render, w, e);
    } else if e == ReadTable {
      ReadKept(render, w);
    } else if e == PeekTrace {
      PassKept(render, w, e, w.pc.pass);
      TraceKept(w.(clock := w.clock + 1), w.pc.pass, w.traceID);
    } else {
      ForwardKept(render, w, e);
    }
  }

  lemma TraceKept(w: World, p: Pass, trace: string)
    requires PassSound(w, p)
    ensures PassSound(w, p.(trace := trace))
  {
    forall k | 0 <= k < |p.got| ensures ReadSound(w, p.(trace := trace), k) { assert ReadSound(w, p, k); }
  }

  lemma InvEvent(render: seq<string> -> string, w: World, e: Event)
    requires Inv(render, w) && Enabled(w, e)
    ensures Inv(render, Apply(render, w, e))
  {
    PcKept(render, w, e);
  }

  // ---- runs ----

  ghost predicate StepAt(render: seq<string> -> string, ws: seq<World>, es: seq<Event>, i: nat)
    requires i < |es| < |ws|
  {
    Enabled(ws[i], es[i]) && |ws[i].writtenAt| == |ws[i].tables| && ws[i + 1] == Apply(render, ws[i], es[i])
  }

  ghost predicate Run(render: seq<string> -> string, ws: seq<World>, es: seq<Event>) {
    |ws| == |es| + 1 && Initial(ws[0]) && forall i :: 0 <= i < |es| ==> StepAt(render, ws, es, i)
  }

  lemma {:induction false} RunInv(render: seq<string> -> string, ws: seq<World>, es: seq<Event>, i: nat)
    requires Run(render, ws, es) && i < |ws|
    ensures Inv(render, ws[i])
  {
    if i > 0 {
      RunInv(render, ws, es, i - 1);
      assert StepAt(render, ws, es, i - 1);
      InvEvent(render, ws[i - 1], es[i - 1]);
    }
  }

  /** Blocked on an open channel after a successful render: every table was read after the latest
      Notify, and the session remembers exactly that render. */
  lemma NoLostWakeup(render: seq<string> -> string, ws: seq<World>, es: seq<Event>, i: nat)
    requires Run(render, ws, es) && i < |ws|
    requires ws[i].pc.Blocked? && ws[i].pc.rendered.Some? && !ClosedAt(ws[i].ch, ws[i].pc.pass.waitCh)
    ensures
      var w, p := ws[i], ws[i].pc.pass;
      && |p.got| == |p.readAt| == |w.tables|
      && (forall k :: 0 <= k < |p.readAt| ==> w.notifiedAt < p.readAt[k])
      && w.last == w.pc.rendered == Some(render(p.got))
  {
    RunInv(render, ws, es, i);
    var w, p := ws[i], ws[i].pc.pass;
    forall k | 0 <= k < |p.readAt| ensures w.notifiedAt < p.readAt[k] { assert ReadSound(w, p, k); }
  }

  /** Once every write has been notified, a blocked loop has nothing left to push: what the session
      remembers as sent is the render of the tables as they are. */
  lemma QuietMeansCurrent(render: seq<string> -> string, ws: seq<World>, es: seq<Event>, i: nat)
    requires Run(render, ws, es) && i < |ws|
    requires ws[i].pc.Blocked? && ws[i].pc.rendered.Some? && !ClosedAt(ws[i].ch, ws[i].pc.pass.waitCh)
    requires forall k :: 0 <= k < |ws[i].writtenAt| ==> ws[i].writtenAt[k] <= ws[i].notifiedAt
    ensures ws[i].last == Some(render(ws[i].tables))
  {
    NoLostWakeup(render, ws, es, i);
    RunInv(render, ws, es, i);
    var w, p := ws[i], ws[i].pc.pass;
    forall k | 0 <= k < |p.got| ensures p.got[k] == w.tables[k] { assert ReadSound(w, p, k); }
    assert p.got == w.tables;
  }

  /** A notification during any part of a pass wakes the loop when it blocks. */
  lemma NotifyDuringPassWakes(render: seq<string> -> string, ws: seq<World>, es: seq<Event>, i: nat, j: nat)
    requires Run(render, ws, es) && i < j < |ws| && es[i] == Notify
    requires PassOf(ws[i].pc).Some? && ws[j].pc.Blocked? && ws[j].pc.pass.waitCh == ws[i].pc.pass.waitCh
    ensures Enabled(ws[j], WakeByNotify)
  {
    RunInv(render, ws, es, i);
    assert StepAt(render, ws, es, i);
    ChannelsGrow(render, ws, es, i + 1, j);
  }

  lemma {:induction false} ChannelsGrow(render: seq<string> -> string, ws: seq<World>, es: seq<Event>, i: nat, j: nat)
    requires Run(render, ws, es) && i <= j < |ws|
    ensures ws[i].ch <= ws[j].ch
  {
    if i < j {
      ChannelsGrow(render, ws, es, i, j - 1);
      assert StepAt(render, ws, es, j - 1);
    }
  }

  /** Over a whole run a message carries a trace only if its content differs from the one before. */
  lemma TracesAnnounceChanges(render: seq<string> -> string, ws: seq<World>, es: seq<Event>, i: nat)
    requires Run(render, ws, es) && i < |ws|
    ensures TracesTruthful(ws[i].sent)
  {
    RunInv(render, ws, es, i);
  }
}
