/** The error stream as the program runs it. */
module ErrorFeed {
  import opened Wrappers
  import opened ErrorStream

  datatype Kind = Ready | Errors | HeartbeatKind

  datatype Frame = Frame(kind: Kind, cursor: nat, revision: string)

  class Feed {
    /** Counted under the condition by every notifier. */
    var sequence: nat
    var changes: nat
    var cursor: nat
    var observed: nat
    var previous: Option<string>
    ghost var trace: seq<World>
    ghost var labels: seq<Label>

    ghost function Now(): World
      reads this
      requires |trace| > 0
    {
      trace[|trace| - 1]
    }

    ghost predicate Valid()
      reads this
    {
      && |trace| > 0 && IsRun(trace, labels)
      && var w := Now();
      && w.sequence == sequence && w.changes == changes && w.observed == observed
      && w.previous == previous && w.frames == cursor
    }

    constructor (sequence: nat, changes: nat)
      ensures Valid() && Now().pc.Top? && previous.None? && cursor == 0
    {
      this.sequence, this.changes := sequence, changes;
      cursor, observed, previous := 0, 0, None;
      trace := [World(changes, {}, sequence, Top, 0, None, 0, None, 0)];
      labels := [];
    }

    ghost method Took(w: World, l: Label)
      requires |trace| > 0 && IsRun(trace, labels) && Step(Now(), w, l)
      modifies this`trace, this`labels
      ensures |trace| > 0 && IsRun(trace, labels) && Now() == w && old(trace) <= trace
    {
      trace := trace + [w];
      labels := labels + [l];
      assert forall i :: 0 <= i < |labels| ==> Step(trace[i], trace[i + 1], labels[i]);
    }

    /** Other threads commit changes, and count and signal them unless the lock is held here. */
    method OtherThreads(locked: bool)
      requires Valid() && locked == Locked(Now().pc)
      modifies this`sequence, this`changes, this`trace, this`labels
      ensures Valid() && old(trace) <= trace
      ensures Now() == old(Now()).(changes := changes, sequence := sequence, notified := Now().notified, pc := Now().pc)
      ensures old(sequence) <= sequence
      ensures Now().pc == if old(Now()).pc.Waiting? && sequence > old(sequence) then Top else old(Now()).pc
      ensures locked ==> sequence == old(sequence)
    {
      hide IsRun;
      var actions: nat := *;
      ghost var before := Now();
      while actions > 0
        invariant Valid() && old(trace) <= trace
        invariant Now() == before.(changes := changes, sequence := sequence, notified := Now().notified, pc := Now().pc)
        invariant old(sequence) <= sequence
        invariant Now().pc == if before.pc.Waiting? && sequence > old(sequence) then Top else before.pc
        invariant locked ==> sequence == old(sequence)
      {
        var n: nat := *;
        if n < changes && !locked {
          sequence := sequence + 1;
          ghost var w := Now();
          Took(w.(notified := w.notified + {n}, sequence := sequence, pc := if w.pc.Waiting? then Top else w.pc), LNotify(n));
        } else {
          changes := changes + 1;
          Took(Now().(changes := changes), LCommit);
        }
        actions := actions - 1;
      }
    }

    /** Reads the counter and then, still under the lock, builds a page. */
    method BuildDocument(revision: string)
      requires Valid() && Now().pc.Top?
      modifies this
      ensures Valid() && old(trace) <= trace && cursor == old(cursor) && previous == old(previous)
      ensures Now().pc.Compare? && Now().pc.revision == revision
      ensures observed == old(sequence) <= sequence
    {
      hide IsRun;
      observed := sequence;
      Took(Now().(pc := Counted, observed := sequence), LGenerator);
      OtherThreads(true);
      var later: int := *;
      if later < 0 {
        later := 0;
      }
      ghost var w := Now();
      changes := changes + later;
      Took(w.(pc := Paged(revision, w.changes), changes := w.changes + later), LPage(revision, later));
      OtherThreads(true);
      Took(Now().(pc := Compare(revision, w.changes)), LGenerator);
    }

    /** In this part of the history the stream slept with its counter current. */
    ghost predicate Slept(from: nat)
      reads this
    {
      exists i :: from <= i < |trace| && trace[i].pc.Waiting? && trace[i].sequence == trace[i].observed
    }

    /** The next frame: one for a new revision, or a heartbeat.  `pages` are the revisions of the
        pages built one after another, and `turns` bounds how many; without a frame the counter moved
        at every turn.  The first page with another revision than the last frame's is framed, and a
        heartbeat is given only after a sleep through which the counter did not move. */
    method Next(turns: nat, pages: nat -> string) returns (frame: Option<Frame>)
      requires Valid() && Now().pc.Top?
      modifies this
      ensures Valid() && old(trace) <= trace && Now().pc.Top?
      ensures frame.Some? ==> frame.value.cursor == cursor == old(cursor) + 1
      ensures frame.None? ==> cursor == old(cursor) && previous == old(previous) && sequence >= old(sequence) + turns
      ensures frame.Some? && frame.value.kind.HeartbeatKind? ==>
                previous == old(previous) == Some(frame.value.revision) && Slept(|old(trace)|)
      ensures frame.Some? && !frame.value.kind.HeartbeatKind? ==>
                && previous == Some(frame.value.revision) && previous != old(previous)
                && (frame.value.kind.Ready? <==> old(previous).None?)
                && exists k: nat :: k < turns && frame.value.revision == pages(k) && forall j: nat :: j < k ==> old(previous) == Some(pages(j))
      ensures turns > 0 && old(previous) != Some(pages(0)) ==>
                frame.Some? && !frame.value.kind.HeartbeatKind? && frame.value.revision == pages(0)
    {
      hide IsRun, Step;
      var turn := 0;
      while turn < turns
        invariant 0 <= turn <= turns && sequence >= old(sequence) + turn
        invariant Valid() && old(trace) <= trace && Now().pc.Top? && cursor == old(cursor) && previous == old(previous)
        invariant forall j: nat :: j < turn ==> old(previous) == Some(pages(j))
      {
        var revision := pages(turn);
        BuildDocument(revision);
        OtherThreads(false);
        if previous != Some(revision) {
          var f := Announce(revision);
          return Some(f);
        }
        var idle := AwaitChange(revision);
        if idle {
          return Some(Frame(HeartbeatKind, cursor, revision));
        }
        turn := turn + 1;
      }
      frame := None;
    }

    /** A frame for a revision the client has not seen. */
    method Announce(revision: string) returns (frame: Frame)
      requires Valid() && Now().pc.Compare? && Now().pc.revision == revision && previous != Some(revision)
      modifies this
      ensures Valid() && old(trace) <= trace && Now().pc.Top?
      ensures cursor == old(cursor) + 1 && previous == Some(revision)
      ensures frame == Frame(if old(previous).None? then Ready else Errors, cursor, revision)
    {
      hide IsRun;
      ghost var w := Now();
      var kind := if previous.None? then Ready else Errors;
      cursor := cursor + 1;
      previous := Some(revision);
      Took(w.(pc := Top, previous := previous, frames := cursor, pageRevision := previous, pageBegun := w.pc.begun), LGenerator);
      frame := Frame(kind, cursor, revision);
    }

    /** Sleeps unless the counter has moved; true when the time ran out. */
    method AwaitChange(revision: string) returns (idle: bool)
      requires Valid() && Now().pc.Compare? && Now().pc.revision == revision && previous == Some(revision)
      modifies this
      ensures Valid() && old(trace) <= trace && Now().pc.Top? && previous == old(previous)
      ensures cursor == old(cursor) + if idle then 1 else 0
      ensures old(sequence) <= sequence && (idle ==> Slept(|old(trace)|)) && (!idle ==> sequence != old(observed))
    {
      hide IsRun;
      ghost var w := Now();
      Took(w.(pc := Checking, pageRevision := Some(revision), pageBegun := w.pc.begun), LGenerator);
      OtherThreads(true);
      if sequence != observed {
        Took(Now().(pc := Top), LGenerator);
        return false;
      }
      Took(Now().(pc := Waiting), LGenerator);
      assert trace[|trace| - 1].pc.Waiting? && trace[|trace| - 1].sequence == trace[|trace| - 1].observed;
      ghost var asleep := |trace| - 1;
      OtherThreads(false);
      assert trace[asleep].pc.Waiting?;
      idle := sequence == observed;
      if idle {
        cursor := cursor + 1;
        Took(Now().(pc := Top, frames := cursor), LGenerator);
      }
    }
  }
}
