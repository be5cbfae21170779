/** What a client of the desktop stream may rely on, in every interleaving of writers,
    retention and the generator. */
module StreamSafety {
  import opened Wrappers
  import opened StreamMachine

  lemma FirstIsLeast(s: seq<Event>, e: Event)
    requires Ascending(s) && e in s
    ensures s[0] == e || s[0].cursor < e.cursor
  {
  }

  lemma {:induction false} SameAscending(a: seq<Event>, b: seq<Event>)
    requires Ascending(a) && Ascending(b) && forall e :: e in a <==> e in b
    ensures a == b
  {
    assert a != [] ==> a[0] in b;
    assert b != [] ==> b[0] in a;
    if a == [] {
    } else {
      FirstIsLeast(a, b[0]);
      FirstIsLeast(b, a[0]);
      forall e ensures e in a[1..] <==> e in b[1..] {
        assert e in a[1..] <==> e in a && e != a[0];
        assert e in b[1..] <==> e in b && e != b[0];
      }
      SameAscending(a[1..], b[1..]);
      assert a == [a[0]] + a[1..] && b == [b[0]] + b[1..];
    }
  }

  /** The log rows with cursors above the first and up to the last frame's. */
  function Span(w: World): seq<Event>
    requires w.ready <= w.cursor && Ascending(w.log)
  {
    var from, to := Position(w.log, w.ready), Position(w.log, w.cursor);
    if from <= to then w.log[from..to] else []
  }

  lemma SpanMembers(w: World, e: Event)
    requires w.ready <= w.cursor && Ascending(w.log)
    ensures e in Span(w) <==> e in w.log && w.ready < e.cursor <= w.cursor
    ensures Ascending(Span(w))
  {
    var from, to := Position(w.log, w.ready), Position(w.log, w.cursor);
    if e in w.log {
      var i :| 0 <= i < |w.log| && w.log[i] == e;
      if from <= to {
        SliceMember(w.log, from, to, i);
      }
    }
  }

  /** After the first frame the concatenated frames are exactly the scope's rows between the
      two cursors, ascending, with no gap and no repeat, if and only if retention has taken
      no such row before it was read. */
  lemma FramesAreTheLog(run: seq<World>, labels: seq<Label>, i: nat)
    requires IsRun(run, labels) && i < |run| && HasCursor(run[i].pc)
    ensures run[i].ready <= run[i].cursor && Ascending(run[i].log) && run[i].pruned <= |run[i].log|
    ensures run[i].delivered == Span(run[i]) <==> forall e :: e in run[i].lost ==> e.cursor > run[i].cursor
    ensures forall e :: e in run[i].delivered ==> e in Span(run[i])
    ensures forall e :: e in Span(run[i]) && e !in run[i].delivered ==> e in run[i].log[..run[i].pruned]
  {
    RunKeepsInv(run, labels, i);
    var w := run[i];
    forall e ensures e in Span(w) <==> e in w.log && w.ready < e.cursor <= w.cursor {
      SpanMembers(w, e);
    }
    SpanMembers(w, Event(0, ""));
    if forall e :: e in w.lost ==> e.cursor > w.cursor {
      SameAscending(w.delivered, Span(w));
    } else {
      var e :| e in w.lost && e.cursor <= w.cursor;
      assert e in w.log;
      assert e in Span(w) && e !in w.delivered;
    }
  }

  /** When the generator waits, its counters are current, its last frame was built after every
      notified change was committed, and every notified row lies behind its cursor. */
  lemma NeverSleepsPastAChange(run: seq<World>, labels: seq<Label>, i: nat)
    requires IsRun(run, labels) && i < |run| && run[i].pc.Waiting?
    ensures Quiet(run[i])
    ensures forall n :: n in run[i].notified ==> n < run[i].asOf <= |run[i].changes|
    ensures forall n :: n in run[i].notified && run[i].changes[n].Stored? ==>
                          run[i].changes[n].event.cursor <= run[i].cursor || run[i].changes[n].event in run[i].lost
  {
    RunKeepsInv(run, labels, i);
  }

  /** A notification finds the generator outside the lock, and if it waits, ends the wait. */
  lemma NotifyEndsTheWait(w: World, w': World, n: nat, broadcast: bool)
    requires Inv(w) && Notify(w, w', n, broadcast) && w.pc.Waiting?
    ensures w'.pc.Runnable? && !Quiet(w')
  {
  }

  /** Some row at or above the cursor has been pruned. */
  predicate PrunedFrom(w: World, cursor: nat)
    requires w.pruned <= |w.log|
  {
    exists i :: 0 <= i < w.pruned && w.log[i].cursor >= cursor
  }

  /** A resumed stream that is not told to resynchronise starts at its own cursor with nothing above
      that cursor pruned.  It is told to exactly when its cursor is beyond the tail, or a row at or
      above it was pruned, or a watermark beyond the last pruned row reaches it. */
  lemma NoSilentGapAtResume(run: seq<World>, labels: seq<Label>, i: nat)
    requires IsRun(run, labels) && i + 1 < |run| && labels[i].LGenerator?
    requires run[i].pc.GotTail? && run[i].pc.after.Some? && run[i + 1].pc.GotMark?
    ensures Marked(run[i])
    ensures !run[i + 1].resync ==>
              && run[i + 1].ready == run[i].pc.after.value && run[i + 1].lost == {}
              && forall e :: e in run[i + 1].log[..run[i + 1].pruned] ==> e.cursor <= run[i].pc.after.value
    ensures run[i + 1].resync ==> run[i + 1].ready == run[i].pc.tail
    ensures run[i + 1].resync <==>
              || run[i].pc.after.value > run[i].pc.tail
              || PrunedFrom(run[i], run[i].pc.after.value)
              || (run[i].pc.after.value <= run[i].mark && Watermark(run[i].log, run[i].pruned) < run[i].mark)
  {
    RunKeepsInv(run, labels, i);
    var w, w', after := run[i], run[i + 1], run[i].pc.after.value;
    assert ReadWatermark(w, w');
    if w.pruned > 0 {
      forall e | e in w.log[..w.pruned] ensures e.cursor <= w.log[w.pruned - 1].cursor {
        var k :| 0 <= k < w.pruned && w.log[k] == e;
      }
      assert PrunedFrom(w, after) <==> w.log[w.pruned - 1].cursor >= after;
    }
  }

  /** A thread of which nothing was pruned, but which took over its host's watermark, sends even a
      client at the very start to resynchronise. */
  lemma InheritedWatermarkDemandsNeedlessly(run: seq<World>, labels: seq<Label>, i: nat)
    requires IsRun(run, labels) && i + 1 < |run| && labels[i].LGenerator?
    requires run[i].pc.GotTail? && run[i].pc.after == Some(0) && run[i + 1].pc.GotMark?
    requires run[i].pruned == 0 && run[i].mark > 0
    ensures run[i + 1].resync && !PrunedFrom(run[i], 0) && run[i].log[..run[i].pruned] == []
  {
    NoSilentGapAtResume(run, labels, i);
  }
}
