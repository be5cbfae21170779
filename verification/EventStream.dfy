/** The desktop stream as the program runs it: a generator over a shared log, guarded by a
    condition.  Each method records the machine steps it takes; between any two of them other
    threads may act, so `StreamSafety` describes every stream the class can produce. */
module EventStream {
  import opened Wrappers
  import opened StreamMachine

  datatype Kind = ReadyKind(resync: bool) | Desktop(changed: bool, hasMore: bool) | HeartbeatKind

  datatype Frame = Frame(kind: Kind, cursor: nat, events: seq<Event>)

  /** The event rows of one scope and the counters under the condition. */
  class Hub {
    var log: seq<Event>
    var pruned: nat
    /** The scope's stored watermark. */
    var mark: nat
    var scopeSeq: nat
    var broadcastSeq: nat
    /** Changes committed since the stream was asked for; each will be notified. */
    var commits: nat

    constructor (log: seq<Event>, pruned: nat, mark: nat)
      requires pruned <= |log|
      ensures this.log == log && this.pruned == pruned && this.mark == mark
      ensures scopeSeq == 0 && broadcastSeq == 0 && commits == 0
    {
      this.log, this.pruned, this.mark := log, pruned, mark;
      scopeSeq, broadcastSeq, commits := 0, 0, 0;
    }

    method EventTail() returns (tail: nat)
      requires pruned <= |log|
      ensures tail == Tail(log, pruned)
    {
      tail := if pruned < |log| then log[|log| - 1].cursor else 0;
    }

    /** Selects one row more than the limit to learn whether there are more. */
    method Events(after: nat, limit: nat) returns (events: seq<Event>, next: nat, hasMore: bool)
      requires Ascending(log) && pruned <= |log|
      ensures events == QueryUpTo(log, pruned, after, limit)
      ensures next == if events == [] then after else events[|events| - 1].cursor
      ensures hasMore <==> LiveAbove(log, pruned, next)
    {
      var rows := Select(after, limit + 1);
      hasMore := |rows| > limit;
      events := if hasMore then rows[..limit] else rows;
      next := if events == [] then after else events[|events| - 1].cursor;
      OneMoreTells(log, pruned, after, limit);
    }

    method Select(after: nat, limit: nat) returns (rows: seq<Event>)
      requires Ascending(log) && pruned <= |log|
      ensures rows == QueryUpTo(log, pruned, after, limit)
    {
      hide Ascending, Position;
      var table := log;
      var from := FirstLive(after);
      rows := if from + limit <= |table| then table[from..from + limit] else table[from..];
    }

    method FirstLive(after: nat) returns (from: nat)
      requires Ascending(log) && pruned <= |log|
      ensures from == if Position(log, after) <= pruned then pruned else Position(log, after)
    {
      hide Position;
      from := pruned;
      while from < |log| && log[from].cursor <= after
        invariant pruned <= from <= |log|
        invariant from > pruned ==> log[from - 1].cursor <= after
      {
        from := from + 1;
      }
      FirstAbove(log, pruned, after, from);
    }
  }

  lemma FirstAbove(log: seq<Event>, pruned: nat, after: nat, from: nat)
    requires Ascending(log) && pruned <= from <= |log|
    requires from > pruned ==> log[from - 1].cursor <= after
    requires from < |log| ==> log[from].cursor > after
    ensures from == if Position(log, after) <= pruned then pruned else Position(log, after)
  {
    var n := Position(log, after);
    assert from < |log| ==> n <= from;
    assert from > pruned ==> n >= from;
  }

  /** Asking for one row more than the limit gives the limited answer and one row beyond it exactly
      when a row above the last of that answer is live. */
  lemma OneMoreTells(log: seq<Event>, pruned: nat, after: nat, limit: nat)
    requires Ascending(log) && pruned <= |log|
    ensures var rows, batch := QueryUpTo(log, pruned, after, limit + 1), QueryUpTo(log, pruned, after, limit);
            && batch == (if |rows| > limit then rows[..limit] else rows)
            && (|rows| > limit <==> LiveAbove(log, pruned, if batch == [] then after else batch[|batch| - 1].cursor))
  {
    var from := if Position(log, after) <= pruned then pruned else Position(log, after);
    var rows, batch := QueryUpTo(log, pruned, after, limit + 1), QueryUpTo(log, pruned, after, limit);
    var to := from + |batch|;
    assert batch == log[from..to];
    assert batch != [] ==> batch[|batch| - 1] == log[to - 1];
    assert |rows| > limit <==> to < |log|;
    if to < |log| {
      assert log[to].cursor > if batch == [] then after else log[to - 1].cursor;
    }
  }

  class Generator {
    const hub: Hub
    var cursor: nat
    var observedScope: nat
    var observedBroadcast: nat
    ghost var trace: seq<World>
    ghost var labels: seq<Label>

    ghost function Now(): World
      reads this
      requires |trace| > 0
    {
      trace[|trace| - 1]
    }

    ghost predicate Valid()
      reads this, hub
    {
      && |trace| > 0 && IsRun(trace, labels)
      && var w := Now();
      && w.log == hub.log && w.pruned == hub.pruned && w.mark == hub.mark
      && |w.changes| == hub.commits && w.scopeSeq == hub.scopeSeq && w.broadcastSeq == hub.broadcastSeq
      && w.pruned <= |w.log|
      && (HasCursor(w.pc) ==> w.cursor == cursor)
      && (HasCursor(w.pc) && !w.pc.GotMark? ==> w.observedScope == observedScope && w.observedBroadcast == observedBroadcast)
    }

    ghost method Took(w: World, l: Label)
      requires |trace| > 0 && IsRun(trace, labels) && Step(Now(), w, l)
      modifies this`trace, this`labels
      ensures |trace| > 0 && IsRun(trace, labels) && trace == old(trace) + [w]
      ensures Waits(trace) == Waits(old(trace)) + if old(Now()).pc.Deciding? && w.pc.Waiting? then 1 else 0
    {
      WaitsNext(trace, w);
      trace := trace + [w];
      labels := labels + [l];
      assert forall i :: 0 <= i < |labels| ==> Step(trace[i], trace[i + 1], labels[i]);
    }

    /** Other threads may wake a waiting generator and change nothing else of its own. */
    ghost predicate Undisturbed(before: World, after: World) {
      && after.pc == (if before.pc.Waiting? && after.pc.Runnable? then Runnable else before.pc)
      && after.delivered == before.delivered && after.ready == before.ready && after.resync == before.resync
      && after.observedScope == before.observedScope && after.observedBroadcast == before.observedBroadcast
      && after.cursor == before.cursor && after.asOf == before.asOf
      && before.log <= after.log && before.pruned <= after.pruned
      && (Locked(before.pc) ==> after.scopeSeq == before.scopeSeq && after.broadcastSeq == before.broadcastSeq)
    }

    /** Other threads commit and prune at any time, and notify unless the lock is held here. */
    method OtherThreads(locked: bool)
      requires Valid() && locked == Locked(Now().pc)
      modifies this`trace, this`labels, hub
      ensures Valid() && old(trace) <= trace
      ensures Undisturbed(old(Now()), Now()) && Waits(trace) == Waits(old(trace))
    {
      hide IsRun;
      var actions: nat := *;
      ghost var before := Now();
      while actions > 0
        invariant Valid() && old(trace) <= trace && Undisturbed(before, Now()) && Waits(trace) == Waits(old(trace))
      {
        OneAction(locked);
        actions := actions - 1;
      }
    }

    method OneAction(locked: bool)
      requires Valid() && locked == Locked(Now().pc)
      modifies this`trace, this`labels, hub
      ensures Valid() && old(trace) <= trace
      ensures Undisturbed(old(Now()), Now()) && Waits(trace) == Waits(old(trace))
    {
      hide IsRun;
      var action: Label := *;
      match action {
        case LCommit(c) =>
          if c.Stored? {
            if c.event.cursor > (if |hub.log| == 0 then 0 else hub.log[|hub.log| - 1].cursor) {
              Insert(c.event);
            }
          } else {
            hub.commits := hub.commits + 1;
            Took(Now().(changes := Now().changes + [c]), action);
          }
        case LPrune(upTo) =>
          if hub.pruned <= upTo <= |hub.log| {
            PruneRows(upTo);
          }
        case LNotify(n, broadcast) =>
          if !locked && n < hub.commits {
            Notified(n, broadcast);
          }
        case LNotifyOther =>
          if !locked {
            Took(Now().(pc := if Now().pc.Waiting? then Runnable else Now().pc), action);
          }
        case LGenerator =>
      }
    }

    method Insert(e: Event)
      requires Valid() && e.cursor > Last(hub.log)
      modifies this`trace, this`labels, hub`log, hub`commits
      ensures Valid() && old(trace) <= trace
      ensures Undisturbed(old(Now()), Now()) && Waits(trace) == Waits(old(trace))
    {
      RunKeepsInv(trace, labels, |trace| - 1);
      forall x | x in hub.log ensures x.cursor < e.cursor {
        LastBounds(hub.log, x);
      }
      hub.log := hub.log + [e];
      hub.commits := hub.commits + 1;
      Took(Now().(changes := Now().changes + [Stored(e)], log := hub.log), LCommit(Stored(e)));
    }

    method PruneRows(upTo: nat)
      requires Valid() && hub.pruned <= upTo <= |hub.log|
      modifies this`trace, this`labels, hub`pruned, hub`mark
      ensures Valid() && old(trace) <= trace
      ensures Undisturbed(old(Now()), Now()) && Waits(trace) == Waits(old(trace))
    {
      hide IsRun;
      hub.pruned := upTo;
      if hub.mark < Watermark(hub.log, upTo) {
        hub.mark := Watermark(hub.log, upTo);
      }
      ghost var w := Now();
      Took(w.(pruned := upTo, mark := hub.mark,
              lost := if HasCursor(w.pc) then w.lost + set e | e in w.log[w.pruned..upTo] && e.cursor > w.cursor else w.lost),
           LPrune(upTo));
    }

    /** Another thread takes the lock, counts its change and wakes the waiters. */
    method Notified(n: nat, broadcast: bool)
      requires Valid() && !Locked(Now().pc) && n < hub.commits
      modifies this`trace, this`labels, hub`scopeSeq, hub`broadcastSeq
      ensures Valid() && old(trace) <= trace
      ensures Undisturbed(old(Now()), Now()) && Waits(trace) == Waits(old(trace))
    {
      hide IsRun;
      ghost var w := Now();
      if broadcast {
        hub.broadcastSeq := hub.broadcastSeq + 1;
      } else {
        hub.scopeSeq := hub.scopeSeq + 1;
      }
      Took(w.(notified := w.notified + {n}, scopeSeq := hub.scopeSeq, broadcastSeq := hub.broadcastSeq,
              pc := if w.pc.Waiting? then Runnable else w.pc), LNotify(n, broadcast));
    }

    /** Opens the stream at `after`, or at the tail, and yields the first frame. */
    constructor (hub: Hub, after: Option<nat>)
      requires Ascending(hub.log) && hub.pruned <= |hub.log| && Watermark(hub.log, hub.pruned) <= hub.mark && hub.commits == 0
      ensures this.hub == hub && Valid() && Now().pc == Opening(after)
    {
      this.hub := hub;
      cursor, observedScope, observedBroadcast := 0, 0, 0;
      trace := [World(hub.log, hub.pruned, hub.mark, [], {}, hub.scopeSeq, hub.broadcastSeq, Opening(after), 0, 0, 0, 0, false, [], {}, 0)];
      labels := [];
    }

    /** The first frame: nothing is replayed, and a client whose cursor cannot be continued is told
        to resynchronise.  It starts, like one without a cursor, at the tail found at the beginning. */
    method Ready(after: Option<nat>) returns (frame: Frame)
      requires Valid() && Now().pc == Opening(after)
      modifies this, hub
      ensures Valid() && old(trace) <= trace && Now().pc.Runnable?
      ensures frame == Frame(ReadyKind(Now().resync), cursor, []) && Now().ready == cursor && Now().delivered == []
      ensures cursor == if after.Some? && !Now().resync then after.value
                        else if old(hub.pruned) < |old(hub.log)| then old(hub.log)[|old(hub.log)| - 1].cursor else 0
    {
      hide IsRun, Step;
      var tail := FindTail(after);
      OtherThreads(true);
      var resync := Locate(after, tail);
      OtherThreads(true);
      Sample();
      OtherThreads(false);
      Resume();
      frame := Frame(ReadyKind(resync), cursor, []);
    }

    method FindTail(after: Option<nat>) returns (tail: nat)
      requires Valid() && Now().pc == Opening(after)
      modifies this`trace, this`labels
      ensures Valid() && old(trace) <= trace && Now().pc == GotTail(after, tail)
      ensures tail == if hub.pruned < |hub.log| then hub.log[|hub.log| - 1].cursor else 0
    {
      hide IsRun;
      tail := hub.EventTail();
      Took(Now().(pc := GotTail(after, tail)), LGenerator);
    }

    /** Notes the counters, still under the lock. */
    method Sample()
      requires Valid() && Now().pc.GotMark?
      modifies this
      ensures Valid() && old(trace) <= trace && cursor == old(cursor)
      ensures Now() == old(Now()).(pc := ReadyFrame, observedScope := Now().observedScope, observedBroadcast := Now().observedBroadcast)
    {
      hide IsRun;
      observedScope, observedBroadcast := hub.scopeSeq, hub.broadcastSeq;
      Took(Now().(pc := ReadyFrame, observedScope := hub.scopeSeq, observedBroadcast := hub.broadcastSeq), LGenerator);
    }

    /** The client has taken the frame and asks for the next one. */
    method Resume()
      requires Valid() && (Now().pc.ReadyFrame? || Now().pc.Framing?)
      modifies this`trace, this`labels
      ensures Valid() && old(trace) <= trace && Waits(trace) == Waits(old(trace))
      ensures Now() == old(Now()).(pc := Runnable, asOf := Now().asOf)
    {
      hide IsRun;
      Took(Now().(pc := Runnable, asOf := |Now().changes|), LGenerator);
    }

    method Locate(after: Option<nat>, tail: nat) returns (resync: bool)
      requires Valid() && Now().pc == GotTail(after, tail)
      modifies this
      ensures Valid() && old(trace) <= trace && Now().pc.GotMark?
      ensures Now().ready == cursor == Now().cursor && Now().delivered == [] && Now().resync == resync
      ensures cursor == if after.Some? && !resync then after.value else tail
    {
      hide IsRun;
      var start := if after.None? then tail else after.value;
      var mark := hub.mark;
      resync := after.Some? && (after.value > tail || (mark > 0 && after.value <= mark));
      if resync {
        start := tail;
      }
      cursor := start;
      ghost var w := Now();
      Took(w.(pc := GotMark, cursor := start, ready := start, resync := resync, delivered := [],
              lost := set e | e in w.log[..w.pruned] && e.cursor > start), LGenerator);
    }

    // -------------------------------------------------------------- the next frame

    /** The generator's own part of a turn that found nothing: it has begun so many waits, and what
        it has delivered, its cursor and its counters are as they were. */
    ghost predicate Patient(before: World, waits: nat, cursor: nat)
      reads this, hub
    {
      && Valid() && Waits(trace) == waits && this.cursor == cursor
      && Now().delivered == before.delivered && Now().ready == before.ready
      && Now().observedScope == before.observedScope && Now().observedBroadcast == before.observedBroadcast
      && before.log <= hub.log && before.pruned <= hub.pruned
    }

    /** At this point the generator held the lock, every row above the cursor was pruned, and its
        counters were current. */
    ghost predicate FoundNothingAt(i: nat, cursor: nat)
      reads this
    {
      && i < |trace| && trace[i].pc.Deciding? && trace[i].cursor == cursor
      && Drained(trace[i].log, trace[i].pruned, cursor) && Quiet(trace[i])
    }

    /** The next frame.  `wakes` is how often the wait ends before the heartbeat is due.  A frame
        without events is given only when the rows above the cursor that were there at the beginning
        are all gone: for a change that was not yet observed, or, after all the waits, as a heartbeat
        when nothing was found. */
    method Next(wakes: nat) returns (frame: Frame)
      requires Valid() && Now().pc.Runnable?
      modifies this, hub
      ensures Valid() && old(trace) <= trace && Now().pc.Runnable?
      ensures frame.cursor == cursor && !frame.kind.ReadyKind?
      ensures Now().delivered == old(Now()).delivered + frame.events && Now().ready == old(Now()).ready
      ensures frame.events == [] ==> cursor == old(cursor) && Drained(old(hub.log), hub.pruned, old(cursor))
      ensures frame.events != [] ==> frame.kind.Desktop? && !frame.kind.changed && cursor == frame.events[|frame.events| - 1].cursor
      ensures frame.kind.Desktop? && frame.kind.changed ==>
                frame.events == [] && (observedScope != old(observedScope) || observedBroadcast != old(observedBroadcast))
      ensures frame.kind.HeartbeatKind? ==>
                && Waits(trace) == Waits(old(trace)) + wakes
                && observedScope == old(observedScope) && observedBroadcast == old(observedBroadcast)
                && exists i :: |old(trace)| <= i < |trace| && FoundNothingAt(i, cursor) && Waits(trace[..i + 1]) == Waits(trace)
      ensures frame.events == [] ==> frame.kind.HeartbeatKind? || frame.kind.changed
      ensures Waits(trace) <= Waits(old(trace)) + wakes
    {
      hide IsRun, Step, Ascending, Waits;
      var left := wakes;
      ghost var first := Now();
      while true
        invariant old(trace) <= trace && Now().pc.Runnable? && 0 <= left <= wakes
        invariant Patient(first, Waits(old(trace)) + wakes - left, old(cursor))
        decreases left
      {
        OtherThreads(false);
        var found := Look();
        if found.Some? {
          frame := found.value;
          OtherThreads(true);
          Resume();
          return;
        }
        if left == 0 {
          frame := Beat();
          return;
        }
        OtherThreads(true);
        Sleep();
        left := left - 1;
      }
    }

    /** The time is up and nothing was found. */
    method Beat() returns (frame: Frame)
      requires Valid() && Now().pc.Deciding? && FoundNothingAt(|trace| - 1, cursor)
      modifies this`trace, this`labels, hub
      ensures Valid() && old(trace) <= trace && Now().pc.Runnable? && Waits(trace) == Waits(old(trace))
      ensures Now().delivered == old(Now()).delivered && Now().ready == old(Now()).ready
      ensures old(hub.log) <= hub.log && old(hub.pruned) <= hub.pruned
      ensures frame == Frame(HeartbeatKind, cursor, [])
      ensures trace[..|old(trace)|] == old(trace) && FoundNothingAt(|old(trace)| - 1, cursor)
    {
      hide IsRun, Step, Ascending, Waits, Drained;
      OtherThreads(true);
      Settle();
      OtherThreads(true);
      Resume();
      frame := Frame(HeartbeatKind, cursor, []);
    }

    /** The wait is over without a change: a heartbeat is due. */
    method Settle()
      requires Valid() && Now().pc.Deciding?
      modifies this`trace, this`labels
      ensures Valid() && old(trace) <= trace && Now() == old(Now()).(pc := Framing) && Waits(trace) == Waits(old(trace))
    {
      hide IsRun;
      Took(Now().(pc := Framing), LGenerator);
    }

    /** Waits until another thread notifies or the time is up. */
    method Sleep()
      requires Valid() && Now().pc.Deciding?
      modifies this`trace, this`labels, hub
      ensures Valid() && old(trace) <= trace && Now().pc.Runnable?
      ensures Patient(old(Now()), Waits(old(trace)) + 1, cursor)
    {
      hide IsRun, Waits;
      Took(Now().(pc := Waiting), LGenerator);
      OtherThreads(false);
      if Now().pc.Waiting? {
        Took(Now().(pc := Runnable), LGenerator);
      }
    }

    /** What one turn under the lock gives. */
    ghost predicate Looked(frame: Option<Frame>, before: World, cursor: nat)
      reads this, hub
    {
      && Valid() && Now().ready == before.ready
      && (frame.None? ==>
            && Now().pc.Deciding? && Now().delivered == before.delivered && this.cursor == cursor
            && Now().observedScope == before.observedScope && Now().observedBroadcast == before.observedBroadcast
            && Drained(hub.log, hub.pruned, cursor) && Quiet(Now()))
      && (frame.Some? ==>
            && Now().pc.Framing? && frame.value.cursor == this.cursor && frame.value.kind.Desktop?
            && Now().delivered == before.delivered + frame.value.events
            && (frame.value.kind.changed <==> frame.value.events == [])
            && (frame.value.kind.hasMore <==> frame.value.events != [] && LiveAbove(hub.log, hub.pruned, this.cursor)))
      && (frame.Some? && frame.value.events == [] ==>
            && this.cursor == cursor && Drained(hub.log, hub.pruned, cursor)
            && (observedScope != before.observedScope || observedBroadcast != before.observedBroadcast))
      && (frame.Some? && frame.value.events != [] ==> this.cursor == frame.value.events[|frame.value.events| - 1].cursor)
    }

    /** One turn of the loop under the lock: a frame of new rows, a frame for a change
        without rows, or None when nothing was found. */
    method Look() returns (frame: Option<Frame>)
      requires Valid() && Now().pc.Runnable?
      modifies this, hub
      ensures Looked(frame, old(Now()), old(cursor)) && old(trace) <= trace && |old(trace)| < |trace|
      ensures Waits(trace) == Waits(old(trace)) && old(hub.log) <= hub.log && old(hub.pruned) <= hub.pruned
    {
      hide IsRun, Waits, Drained, LiveAbove;
      Took(Now().(pc := Top), LGenerator);
      OtherThreads(true);
      var currentScope, currentBroadcast := hub.scopeSeq, hub.broadcastSeq;
      Took(Now().(pc := Sampled(currentScope, currentBroadcast)), LGenerator);
      OtherThreads(true);
      frame := Examine(currentScope, currentBroadcast);
    }

    method Examine(currentScope: nat, currentBroadcast: nat) returns (frame: Option<Frame>)
      requires Valid() && Now().pc == Sampled(currentScope, currentBroadcast)
      requires currentScope == hub.scopeSeq && currentBroadcast == hub.broadcastSeq
      modifies this
      ensures Looked(frame, old(Now()), old(cursor)) && old(trace) <= trace && Waits(trace) == Waits(old(trace))
    {
      hide IsRun, Step, Waits, Drained, LiveAbove;
      LogAscends();
      var events, next, hasMore := hub.Events(cursor, BATCH);
      EmptyMeansDrained(hub.log, hub.pruned, cursor);
      if events != [] {
        Deliver(currentScope, currentBroadcast, events, next);
        frame := Some(Frame(Desktop(false, hasMore), cursor, events));
      } else if currentScope != observedScope || currentBroadcast != observedBroadcast {
        NoteChange(currentScope, currentBroadcast);
        frame := Some(Frame(Desktop(true, false), cursor, []));
      } else {
        FindNothing();
        frame := None;
      }
    }

    lemma LogAscends()
      requires Valid()
      ensures Ascending(hub.log)
    {
      RunKeepsInv(trace, labels, |trace| - 1);
    }

    /** Moves the cursor over a batch of rows. */
    method Deliver(currentScope: nat, currentBroadcast: nat, events: seq<Event>, next: nat)
      requires Valid() && Now().pc == Sampled(currentScope, currentBroadcast)
      requires events == Query(hub.log, hub.pruned, cursor) != [] && next == events[|events| - 1].cursor
      modifies this
      ensures Valid() && old(trace) <= trace && Now().ready == old(Now()).ready && Now().pc.Framing?
      ensures cursor == next && Now().delivered == old(Now()).delivered + events && Waits(trace) == Waits(old(trace))
    {
      hide IsRun, Query;
      ghost var w := Now();
      cursor := next;
      observedScope, observedBroadcast := currentScope, currentBroadcast;
      Took(w.(pc := Framing, cursor := next, delivered := w.delivered + events,
              observedScope := currentScope, observedBroadcast := currentBroadcast), LGenerator);
    }

    /** Notes a change that brought no rows to this scope. */
    method NoteChange(currentScope: nat, currentBroadcast: nat)
      requires Valid() && Now().pc == Sampled(currentScope, currentBroadcast)
      requires Query(hub.log, hub.pruned, cursor) == [] && (currentScope != observedScope || currentBroadcast != observedBroadcast)
      modifies this
      ensures Valid() && old(trace) <= trace && Now().ready == old(Now()).ready && Now().pc.Framing?
      ensures cursor == old(cursor) && Now().delivered == old(Now()).delivered && Waits(trace) == Waits(old(trace))
      ensures observedScope == currentScope && observedBroadcast == currentBroadcast
    {
      hide IsRun, Query;
      ghost var w := Now();
      observedScope, observedBroadcast := currentScope, currentBroadcast;
      Took(w.(pc := Framing, observedScope := currentScope, observedBroadcast := currentBroadcast), LGenerator);
    }

    method FindNothing()
      requires Valid() && Now().pc == Sampled(observedScope, observedBroadcast)
      requires Query(hub.log, hub.pruned, cursor) == []
      modifies this`trace, this`labels
      ensures Valid() && old(trace) <= trace && Now() == old(Now()).(pc := Deciding) && Waits(trace) == Waits(old(trace))
    {
      hide IsRun, Query;
      Took(Now().(pc := Deciding), LGenerator);
    }
  }

  lemma EmptyMeansDrained(log: seq<Event>, pruned: nat, cursor: nat)
    requires Ascending(log) && pruned <= |log|
    ensures Query(log, pruned, cursor) == [] <==> Drained(log, pruned, cursor)
  {
    var n := Position(log, cursor);
    if n < |log| && pruned < |log| {
      assert log[|log| - 1].cursor > cursor;
    }
  }
}
