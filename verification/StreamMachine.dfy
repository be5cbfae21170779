/** The desktop event stream as a small-step machine: writers commit rows and then
    notify, retention prunes, and one generator follows the log of its scope.

    The database is read and written without the condition lock; counters change and
    waits begin and end only under it.  Every read below is a step of its own. */
module StreamMachine {
  import opened Wrappers

  const BATCH := 100

  /** One row of the scope's log; cursors are positive and grow. */
  datatype Event = Event(cursor: nat, body: string)

  /** Anything a writer commits before it notifies: a log row, or other state that frames show. */
  datatype Change = Stored(event: Event) | Other

  datatype Pc =
    | Opening(after: Option<nat>)
    | GotTail(after: Option<nat>, tail: nat)      // lock held
    | GotMark                                     // lock held: cursor chosen, counters next
    | ReadyFrame                                  // lock released, first frame not yet built
    | Runnable                                    // outside the lock
    | Top                                         // lock held
    | Sampled(scopeSeq: nat, broadcastSeq: nat)   // lock held
    | Deciding                                    // lock held: nothing new found
    | Framing                                     // lock held
    | Waiting

  /** `pruned` rows are gone from the front of `log`, and `mark` is the scope's stored watermark: at
      least the last pruned cursor, and more for a thread that took over its host's.  `asOf` is how many changes had been
      committed when the last frame was built; `lost` are rows pruned before they were read. */
  datatype World = World(
    log: seq<Event>, pruned: nat, mark: nat, changes: seq<Change>, notified: set<nat>,
    scopeSeq: nat, broadcastSeq: nat,
    pc: Pc, cursor: nat, observedScope: nat, observedBroadcast: nat,
    ready: nat, resync: bool, delivered: seq<Event>, lost: set<Event>, asOf: nat)

  predicate Locked(pc: Pc) {
    pc.GotTail? || pc.GotMark? || pc.Top? || pc.Sampled? || pc.Deciding? || pc.Framing?
  }

  // ---------------------------------------------------------------- reads

  predicate Ascending(log: seq<Event>) {
    && (forall i :: 0 <= i < |log| ==> log[i].cursor > 0)
    && forall i, j :: 0 <= i < j < |log| ==> log[i].cursor < log[j].cursor
  }

  /** How many rows lie at or below a cursor. */
  function Position(log: seq<Event>, cursor: nat): (n: nat)
    ensures n <= |log|
    ensures Ascending(log) ==> forall i :: 0 <= i < |log| ==> (log[i].cursor <= cursor <==> i < n)
  {
    if log == [] then 0
    else if log[|log| - 1].cursor <= cursor then |log|
    else Position(log[..|log| - 1], cursor)
  }

  function Tail(log: seq<Event>, pruned: nat): nat
    requires pruned <= |log|
  {
    if pruned < |log| then log[|log| - 1].cursor else 0
  }

  function Watermark(log: seq<Event>, pruned: nat): nat
    requires pruned <= |log|
  {
    if pruned == 0 then 0 else log[pruned - 1].cursor
  }

  /** The first live rows above the cursor, in ascending order, at most `limit` of them. */
  function QueryUpTo(log: seq<Event>, pruned: nat, after: nat, limit: nat): (batch: seq<Event>)
    requires pruned <= |log|
    ensures |batch| <= limit
  {
    var from := if Position(log, after) <= pruned then pruned else Position(log, after);
    log[from..if from + limit <= |log| then from + limit else |log|]
  }

  function Query(log: seq<Event>, pruned: nat, after: nat): (batch: seq<Event>)
    requires pruned <= |log|
    ensures |batch| <= BATCH
  {
    QueryUpTo(log, pruned, after, BATCH)
  }

  /** Some row above the cursor has not been pruned. */
  predicate LiveAbove(log: seq<Event>, pruned: nat, after: nat)
    requires pruned <= |log|
  {
    exists i :: pruned <= i < |log| && log[i].cursor > after
  }

  function MustResync(after: Option<nat>, tail: nat, watermark: nat): bool {
    after.Some? && (after.value > tail || (watermark > 0 && after.value <= watermark))
  }

  function StartCursor(after: Option<nat>, tail: nat, watermark: nat): nat {
    if after.None? || MustResync(after, tail, watermark) then tail else after.value
  }

  // ---------------------------------------------------------------- writers and retention

  predicate Commit(w: World, w': World, c: Change) {
    && (c.Stored? ==> c.event.cursor > 0 && forall e :: e in w.log ==> e.cursor < c.event.cursor)
    && w' == w.(changes := w.changes + [c], log := if c.Stored? then w.log + [c.event] else w.log)
  }

  /** Bumps this scope's counter or the broadcast counter, and wakes the generator. */
  predicate Notify(w: World, w': World, n: nat, broadcast: bool) {
    && !Locked(w.pc) && n < |w.changes|
    && w' == w.(notified := w.notified + {n},
                scopeSeq := if broadcast then w.scopeSeq else w.scopeSeq + 1,
                broadcastSeq := if broadcast then w.broadcastSeq + 1 else w.broadcastSeq,
                pc := if w.pc.Waiting? then Runnable else w.pc)
  }

  /** A change of another scope wakes everybody but moves neither counter. */
  predicate NotifyOther(w: World, w': World) {
    !Locked(w.pc) && w' == w.(pc := if w.pc.Waiting? then Runnable else w.pc)
  }

  predicate HasCursor(pc: Pc) {
    !pc.Opening? && !pc.GotTail?
  }

  predicate Prune(w: World, w': World, upTo: nat) {
    && w.pruned <= upTo <= |w.log|
    && w' == w.(pruned := upTo,
                mark := if w.mark >= Watermark(w.log, upTo) then w.mark else Watermark(w.log, upTo),
                lost := if HasCursor(w.pc)
                        then w.lost + set e | e in w.log[w.pruned..upTo] && e.cursor > w.cursor
                        else w.lost)
  }

  // ---------------------------------------------------------------- generator

  predicate ReadTail(w: World, w': World) {
    w.pc.Opening? && w.pruned <= |w.log| && w' == w.(pc := GotTail(w.pc.after, Tail(w.log, w.pruned)))
  }

  predicate ReadWatermark(w: World, w': World) {
    && w.pc.GotTail? && w.pruned <= |w.log|
    && var cursor := StartCursor(w.pc.after, w.pc.tail, w.mark);
    w' == w.(pc := GotMark, cursor := cursor, ready := cursor,
             resync := MustResync(w.pc.after, w.pc.tail, w.mark),
             delivered := [], lost := set e | e in w.log[..w.pruned] && e.cursor > cursor)
  }

  predicate ReadCounters(w: World, w': World) {
    w.pc.GotMark? && w' == w.(pc := ReadyFrame, observedScope := w.scopeSeq, observedBroadcast := w.broadcastSeq)
  }

  predicate BuildReady(w: World, w': World) {
    w.pc.ReadyFrame? && w' == w.(pc := Runnable, asOf := |w.changes|)
  }

  predicate Enter(w: World, w': World) {
    w.pc.Runnable? && w' == w.(pc := Top)
  }

  predicate Sample(w: World, w': World) {
    w.pc.Top? && w' == w.(pc := Sampled(w.scopeSeq, w.broadcastSeq))
  }

  predicate ReadEvents(w: World, w': World) {
    && w.pc.Sampled? && w.pruned <= |w.log|
    && var batch := Query(w.log, w.pruned, w.cursor);
    if batch != [] then
      w' == w.(pc := Framing, cursor := batch[|batch| - 1].cursor, delivered := w.delivered + batch,
               observedScope := w.pc.scopeSeq, observedBroadcast := w.pc.broadcastSeq)
    else if w.pc.scopeSeq != w.observedScope || w.pc.broadcastSeq != w.observedBroadcast then
      w' == w.(pc := Framing, observedScope := w.pc.scopeSeq, observedBroadcast := w.pc.broadcastSeq)
    else
      w' == w.(pc := Deciding)
  }

  predicate Heartbeat(w: World, w': World) {
    w.pc.Deciding? && w' == w.(pc := Framing)
  }

  predicate Wait(w: World, w': World) {
    w.pc.Deciding? && w' == w.(pc := Waiting)
  }

  predicate TimeOut(w: World, w': World) {
    w.pc.Waiting? && w' == w.(pc := Runnable)
  }

  /** The frame is built from what is committed now, and handed over outside the lock. */
  predicate Yield(w: World, w': World) {
    w.pc.Framing? && w' == w.(pc := Runnable, asOf := |w.changes|)
  }

  datatype Label =
    | LCommit(change: Change)
    | LNotify(n: nat, broadcast: bool)
    | LNotifyOther
    | LPrune(upTo: nat)
    | LGenerator

  predicate GeneratorStep(w: World, w': World) {
    || ReadTail(w, w') || ReadWatermark(w, w') || ReadCounters(w, w') || BuildReady(w, w')
    || Enter(w, w') || Sample(w, w') || ReadEvents(w, w')
    || Heartbeat(w, w') || Wait(w, w') || TimeOut(w, w') || Yield(w, w')
  }

  ghost predicate Step(w: World, w': World, l: Label) {
    match l
    case LCommit(c) => Commit(w, w', c)
    case LNotify(n, broadcast) => Notify(w, w', n, broadcast)
    case LNotifyOther => NotifyOther(w, w')
    case LPrune(upTo) => Prune(w, w', upTo)
    case LGenerator => GeneratorStep(w, w')
  }

  /** The watermark reaches every pruned row. */
  predicate Marked(w: World) {
    w.pruned <= |w.log| && Watermark(w.log, w.pruned) <= w.mark
  }

  /** Any log, pruned or not, and any earlier changes may stand when the stream is opened. */
  ghost predicate Init(w: World) {
    && Ascending(w.log) && Marked(w) && w.pc.Opening? && w.asOf == 0
    && (forall n :: n in w.notified ==> n < |w.changes|)
    && (forall n :: 0 <= n < |w.changes| && w.changes[n].Stored? ==> w.changes[n].event in w.log)
  }

  ghost predicate IsRun(run: seq<World>, labels: seq<Label>) {
    && |run| == |labels| + 1
    && Init(run[0])
    && forall i :: 0 <= i < |labels| ==> Step(run[i], run[i + 1], labels[i])
  }

  /** How often the generator has begun to wait. */
  function Waits(run: seq<World>): nat {
    if |run| < 2 then 0
    else Waits(run[..|run| - 1]) + if run[|run| - 2].pc.Deciding? && run[|run| - 1].pc.Waiting? then 1 else 0
  }

  lemma WaitsNext(run: seq<World>, w: World)
    requires |run| > 0
    ensures Waits(run + [w]) == Waits(run) + if run[|run| - 1].pc.Deciding? && w.pc.Waiting? then 1 else 0
  {
    assert (run + [w])[..|run|] == run;
  }

  /** Every row above the cursor has been pruned. */
  predicate Drained(log: seq<Event>, pruned: nat, cursor: nat) {
    forall i :: 0 <= i < |log| && log[i].cursor > cursor ==> i < pruned
  }

  // ---------------------------------------------------------------- the log and the cursor

  function Last(log: seq<Event>): nat {
    if log == [] then 0 else log[|log| - 1].cursor
  }

  ghost predicate LogInv(w: World) {
    && Ascending(w.log) && w.pruned <= |w.log|
    && (forall n :: n in w.notified ==> n < |w.changes|)
    && (forall n :: 0 <= n < |w.changes| && w.changes[n].Stored? ==> w.changes[n].event in w.log)
    && (HasCursor(w.pc) ==> w.cursor <= Last(w.log))
    && (w.pc.GotTail? ==> w.pc.tail <= Last(w.log))
  }

  /** Everything between the first and the current cursor was delivered, in order, unless lost. */
  ghost predicate Exact(log: seq<Event>, pruned: nat, ready: nat, cursor: nat, delivered: seq<Event>, lost: set<Event>)
    requires pruned <= |log|
  {
    && ready <= cursor
    && Ascending(delivered)
    && (forall e :: e in delivered <==> e in log && ready < e.cursor <= cursor && e !in lost)
    && (forall e :: e in lost ==> e in log[..pruned] && e.cursor > ready)
    && (forall e :: e in log[..pruned] && e.cursor > cursor ==> e in lost)
  }

  ghost predicate DeliveryInv(w: World) {
    && Marked(w)
    && (HasCursor(w.pc) ==> Exact(w.log, w.pruned, w.ready, w.cursor, w.delivered, w.lost))
  }

  lemma CommitKeepsLog(w: World, w': World, c: Change)
    requires LogInv(w) && Commit(w, w', c)
    ensures LogInv(w') && Last(w.log) <= Last(w'.log)
  {
    if c.Stored? {
      assert w'.log == w.log + [c.event];
      forall i | 0 <= i < |w.log| ensures w.log[i].cursor < c.event.cursor {
        assert w.log[i] in w.log;
      }
    }
  }

  lemma CommitKeepsDelivery(w: World, w': World, c: Change)
    requires LogInv(w) && DeliveryInv(w) && Commit(w, w', c)
    ensures DeliveryInv(w')
  {
    if c.Stored? {
      assert w'.log[..w.pruned] == w.log[..w.pruned];
      if w.log != [] {
        assert w.log[|w.log| - 1] in w.log;
      }
    }
  }

  lemma PruneKeepsDelivery(w: World, w': World, upTo: nat)
    requires LogInv(w) && DeliveryInv(w) && Prune(w, w', upTo)
    ensures LogInv(w') && DeliveryInv(w')
  {
    assert w.log[..upTo] == w.log[..w.pruned] + w.log[w.pruned..upTo];
  }

  lemma SliceMember(log: seq<Event>, a: nat, b: nat, i: nat)
    requires Ascending(log) && a <= b <= |log| && i < |log|
    ensures log[i] in log[a..b] <==> a <= i < b
  {
    if a <= i < b {
      assert log[a..b][i - a] == log[i];
    }
  }

  /** Whether a row is in the batch for a cursor is a matter of its place in the log. */
  lemma BatchMember(log: seq<Event>, pruned: nat, after: nat, i: nat)
    requires Ascending(log) && pruned <= |log| && i < |log|
    ensures var batch := Query(log, pruned, after);
            && (log[i].cursor > after && log[i] !in log[..pruned] ==>
                  batch != [] && (log[i].cursor <= batch[|batch| - 1].cursor ==> log[i] in batch))
            && (log[i] in batch ==>
                  log[i].cursor > after && log[i] !in log[..pruned] && log[i].cursor <= batch[|batch| - 1].cursor)
  {
    var from := if Position(log, after) <= pruned then pruned else Position(log, after);
    var to := if from + BATCH <= |log| then from + BATCH else |log|;
    assert Query(log, pruned, after) == log[from..to];
    assert from < to ==> log[from..to][to - from - 1] == log[to - 1];
    SliceMember(log, from, to, i);
    SliceMember(log, 0, pruned, i);
  }

  lemma QueryMembers(log: seq<Event>, pruned: nat, after: nat, e: Event)
    requires Ascending(log) && pruned <= |log|
    ensures var batch := Query(log, pruned, after);
            && (e in batch ==> e in log)
            && (e in log && e.cursor > after && e !in log[..pruned] ==>
                  batch != [] && (e.cursor <= batch[|batch| - 1].cursor ==> e in batch))
            && (e in batch ==> e.cursor > after && e !in log[..pruned] && e.cursor <= batch[|batch| - 1].cursor)
  {
    if e in log {
      var i :| 0 <= i < |log| && log[i] == e;
      BatchMember(log, pruned, after, i);
    }
  }

  /** A batch is exactly the live rows between the old cursor and its own last one. */
  ghost predicate NextBatch(log: seq<Event>, pruned: nat, after: nat, batch: seq<Event>)
    requires pruned <= |log|
  {
    if batch == [] then
      forall e :: e in log && e.cursor > after ==> e in log[..pruned]
    else
      && Ascending(batch) && batch[0].cursor > after && batch[|batch| - 1] in log
      && forall e :: e in batch <==> e in log && after < e.cursor <= batch[|batch| - 1].cursor && e !in log[..pruned]
  }

  lemma QueryIsNext(log: seq<Event>, pruned: nat, after: nat)
    requires Ascending(log) && pruned <= |log|
    ensures NextBatch(log, pruned, after, Query(log, pruned, after))
  {
    var batch := Query(log, pruned, after);
    assert Ascending(batch);
    forall e
      ensures e in batch ==> e in log && e.cursor > after && e !in log[..pruned] && e.cursor <= batch[|batch| - 1].cursor
      ensures e in log && e.cursor > after && e !in log[..pruned] ==>
                batch != [] && (e.cursor <= batch[|batch| - 1].cursor ==> e in batch)
    {
      QueryMembers(log, pruned, after, e);
    }
    if batch != [] {
      assert batch[0] in batch && batch[|batch| - 1] in batch;
    }
  }

  lemma AppendAscending(a: seq<Event>, b: seq<Event>, cursor: nat)
    requires Ascending(a) && Ascending(b)
    requires forall e :: e in a ==> e.cursor <= cursor
    requires b != [] ==> b[0].cursor > cursor
    ensures Ascending(a + b)
  {
    forall i, j | 0 <= i < j < |a + b| ensures (a + b)[i].cursor < (a + b)[j].cursor {
      if i < |a| <= j {
        assert a[i] in a;
        assert b[0].cursor <= b[j - |a|].cursor;
      }
    }
  }

  lemma LastBounds(log: seq<Event>, e: Event)
    requires Ascending(log) && e in log
    ensures e.cursor <= Last(log)
  {
    var i :| 0 <= i < |log| && log[i] == e;
  }

  lemma BatchKeepsExact(log: seq<Event>, pruned: nat, ready: nat, cursor: nat, delivered: seq<Event>, lost: set<Event>)
    requires Ascending(log) && pruned <= |log| && Exact(log, pruned, ready, cursor, delivered, lost)
    requires Query(log, pruned, cursor) != []
    ensures var batch := Query(log, pruned, cursor);
            Exact(log, pruned, ready, batch[|batch| - 1].cursor, delivered + batch, lost)
  {
    var batch := Query(log, pruned, cursor);
    var last := batch[|batch| - 1].cursor;
    QueryIsNext(log, pruned, cursor);
    AppendAscending(delivered, batch, cursor);
    assert batch[0].cursor <= last;
    forall e ensures e in delivered + batch <==> e in log && ready < e.cursor <= last && e !in lost {
      assert e in delivered + batch <==> e in delivered || e in batch;
    }
  }

  lemma ReadEventsKeepsDelivery(w: World, w': World)
    requires LogInv(w) && DeliveryInv(w) && ReadEvents(w, w')
    ensures LogInv(w') && DeliveryInv(w')
  {
    var batch := Query(w.log, w.pruned, w.cursor);
    if batch != [] {
      QueryIsNext(w.log, w.pruned, w.cursor);
      LastBounds(w.log, batch[|batch| - 1]);
      BatchKeepsExact(w.log, w.pruned, w.ready, w.cursor, w.delivered, w.lost);
    }
  }

  lemma ReadWatermarkStartsDelivery(w: World, w': World)
    requires LogInv(w) && Marked(w) && ReadWatermark(w, w')
    ensures LogInv(w') && DeliveryInv(w')
  {
  }

  lemma OtherStepKeepsDelivery(w: World, w': World, l: Label)
    requires LogInv(w) && DeliveryInv(w) && Step(w, w', l)
    requires !l.LCommit? && !l.LPrune? && !ReadEvents(w, w') && !ReadWatermark(w, w')
    ensures LogInv(w') && DeliveryInv(w')
  {
    assert w'.log == w.log && w'.pruned == w.pruned && w'.changes == w.changes;
  }

  lemma StepKeepsDelivery(w: World, w': World, l: Label)
    requires LogInv(w) && DeliveryInv(w) && Step(w, w', l)
    ensures LogInv(w') && DeliveryInv(w')
  {
    match l
    case LCommit(c) =>
      CommitKeepsLog(w, w', c);
      CommitKeepsDelivery(w, w', c);
    case LPrune(upTo) => PruneKeepsDelivery(w, w', upTo);
    case _ =>
      if ReadEvents(w, w') {
        ReadEventsKeepsDelivery(w, w');
      } else if ReadWatermark(w, w') {
        ReadWatermarkStartsDelivery(w, w');
      } else {
        OtherStepKeepsDelivery(w, w', l);
      }
  }

  // ---------------------------------------------------------------- counters and waits

  /** The counters have not moved since the generator last took note of them. */
  predicate Quiet(w: World) {
    w.observedScope == w.scopeSeq && w.observedBroadcast == w.broadcastSeq
  }

  predicate Framed(pc: Pc) {
    pc.Runnable? || pc.Top? || pc.Sampled? || pc.Deciding? || pc.Waiting?
  }

  ghost predicate CounterInv(w: World) {
    && w.asOf <= |w.changes|
    && (HasCursor(w.pc) && !w.pc.GotMark? ==> w.observedScope <= w.scopeSeq && w.observedBroadcast <= w.broadcastSeq)
    && (w.pc.Sampled? ==> w.pc.scopeSeq == w.scopeSeq && w.pc.broadcastSeq == w.broadcastSeq)
    && (w.pc.Deciding? || w.pc.Waiting? ==> Quiet(w))
    && (Framed(w.pc) && Quiet(w) ==> forall n :: n in w.notified ==> n < w.asOf)
  }

  /** While nothing is due, every notified row has been delivered, skipped at the start, or lost. */
  ghost predicate CaughtUp(w: World) {
    w.pc.Deciding? || w.pc.Waiting? ==>
      forall n :: n in w.notified && n < |w.changes| && w.changes[n].Stored? ==>
                    w.changes[n].event.cursor <= w.cursor || w.changes[n].event in w.lost
  }

  lemma StepKeepsCounters(w: World, w': World, l: Label)
    requires LogInv(w) && CounterInv(w) && Step(w, w', l)
    ensures CounterInv(w')
  {
  }

  lemma StepKeepsCaughtUp(w: World, w': World, l: Label)
    requires LogInv(w) && DeliveryInv(w) && CaughtUp(w) && Step(w, w', l)
    ensures CaughtUp(w')
  {
    if !l.LGenerator? {
      WriterKeepsCaughtUp(w, w', l);
    } else if ReadEvents(w, w') {
      ReadEventsCatchesUp(w, w');
    } else {
      hide LogInv, DeliveryInv, Ascending, Query, ReadEvents;
      assert w'.pc.Deciding? || w'.pc.Waiting? ==> Wait(w, w');
    }
  }

  lemma WriterKeepsCaughtUp(w: World, w': World, l: Label)
    requires LogInv(w) && CaughtUp(w) && Step(w, w', l) && !l.LGenerator?
    ensures CaughtUp(w')
  {
    hide Ascending;
  }

  lemma ReadEventsCatchesUp(w: World, w': World)
    requires LogInv(w) && DeliveryInv(w) && ReadEvents(w, w')
    ensures CaughtUp(w')
  {
    QueryIsNext(w.log, w.pruned, w.cursor);
    hide Query, Ascending;
  }

  ghost predicate Inv(w: World) {
    LogInv(w) && DeliveryInv(w) && CounterInv(w) && CaughtUp(w)
  }

  lemma {:induction false} RunKeepsInv(run: seq<World>, labels: seq<Label>, i: nat)
    requires IsRun(run, labels) && i < |run|
    ensures Inv(run[i])
  {
    if i == 0 {
    } else {
      RunKeepsInv(run, labels, i - 1);
      StepKeepsDelivery(run[i - 1], run[i], labels[i - 1]);
      StepKeepsCounters(run[i - 1], run[i], labels[i - 1]);
      StepKeepsCaughtUp(run[i - 1], run[i], labels[i - 1]);
    }
  }
}
