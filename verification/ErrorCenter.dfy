/** The error centre as the program runs it: two tables updated in place by every call. */
module ErrorCenter {
  import opened Wrappers
  import opened ErrorLifecycle

  class Tracker {
    var active: map<Key, Item>
    var recovered: map<Key, Recovered>
    ghost var terminal: set<Key>
    ghost var run: seq<State>
    ghost var calls: seq<Call>

    ghost predicate Valid()
      reads this
    {
      |run| > 0 && IsRun(run, calls) && run[|run| - 1] == State(active, recovered, terminal)
    }

    constructor ()
      ensures Valid() && active == map[] && recovered == map[]
    {
      active, recovered, terminal := map[], map[], {};
      run, calls := [State(map[], map[], {})], [];
    }

    /** What was active until now is dated by the clock. */
    ghost predicate Timed(shown: map<Key, Recovered>, before: map<Key, Item>, clock: Key -> int) {
      forall k :: k in shown && k in before ==> shown[k].at == clock(k)
    }

    /** One call of the tracker; `clock` gives the time at which each item is seen to be gone. */
    method TrackLocalLifecycle(current: seq<Item>, terminalKeys: set<Key>, clock: Key -> int) returns (shown: map<Key, Recovered>)
      requires Valid()
      modifies this
      ensures Valid() && run == old(run) + [State(active, recovered, terminalKeys)]
      ensures |calls| == |old(calls)| + 1 && calls[|old(calls)|].current == current && calls[|old(calls)|].terminal == terminalKeys
      ensures active == ByKey(current) && shown == recovered
      ensures Timed(shown, old(active), clock)
    {
      hide IsRun, Tracks, Timed;
      ghost var before := State(active, recovered, terminal);
      ghost var gathered := Pass(current, terminalKeys, clock);
      Record(before, Call(current, terminalKeys, gathered));
      shown := recovered;
    }

    method Pass(current: seq<Item>, terminalKeys: set<Key>, clock: Key -> int) returns (ghost gathered: map<Key, Recovered>)
      modifies this`active, this`recovered, this`terminal
      ensures Tracks(old(State(active, recovered, terminal)), State(active, recovered, terminal), current, terminalKeys, gathered)
      ensures Timed(recovered, old(active), clock)
    {
      var currentByKey := Index(current);
      Gather(currentByKey, terminalKeys, clock);
      gathered := recovered;
      active := currentByKey;
      EvictOldest();
      terminal := terminalKeys;
    }

    ghost method Record(before: State, call: Call)
      requires |run| > 0 && IsRun(run, calls) && run[|run| - 1] == before
      requires Tracks(before, State(active, recovered, terminal), call.current, call.terminal, call.gathered)
      modifies this`run, this`calls
      ensures Valid() && run == old(run) + [State(active, recovered, terminal)] && calls == old(calls) + [call]
    {
      hide Tracks;
      run := run + [State(active, recovered, terminal)];
      calls := calls + [call];
    }

    /** Adds what has gone and removes what is back or has become terminal. */
    method Gather(currentByKey: map<Key, Item>, terminalKeys: set<Key>, clock: Key -> int)
      modifies this`recovered
      ensures Gathers(old(State(active, recovered, terminal)), currentByKey, terminalKeys, recovered)
      ensures Timed(recovered, active, clock)
    {
      MarkGone(currentByKey, terminalKeys, clock);
      recovered := map k | k in recovered && k !in currentByKey && k !in terminalKeys :: recovered[k];
    }

    method Index(items: seq<Item>) returns (m: map<Key, Item>)
      ensures m == ByKey(items)
    {
      m := map[];
      for i := 0 to |items|
        invariant m == ByKey(items[..i])
      {
        assert items[..i + 1][..i] == items[..i];
        m := m[ItemKey(items[i]) := items[i]];
      }
      assert items[..|items|] == items;
    }

    /** Drops the oldest recovered items until at most 50 are left. */
    method EvictOldest()
      modifies this`recovered
      ensures Evicts(old(recovered), recovered)
    {
      ghost var gathered := recovered;
      while |recovered| > KEPT
        invariant forall k :: k in recovered ==> k in gathered && recovered[k] == gathered[k]
        invariant forall e, k :: e in gathered && e !in recovered && k in recovered ==> gathered[e].at <= recovered[k].at
        invariant |recovered| == |gathered| || KEPT <= |recovered| < |gathered|
        decreases |recovered|
      {
        var oldest := Oldest();
        assert recovered.Keys == (recovered - {oldest}).Keys + {oldest};
        recovered := recovered - {oldest};
      }
    }

    /** Copies every item that is no longer reported, marked as recovered and not retryable. */
    method MarkGone(currentByKey: map<Key, Item>, terminalKeys: set<Key>, clock: Key -> int)
      modifies this`recovered
      ensures recovered.Keys == old(recovered).Keys + (active.Keys - currentByKey.Keys - terminalKeys)
      ensures forall k :: k in active && k !in currentByKey && k !in terminalKeys ==>
                            recovered[k] == Recovered(active[k].(retryable := false), clock(k))
      ensures forall k :: k in old(recovered) && (k !in active || k in currentByKey || k in terminalKeys) ==>
                            recovered[k] == old(recovered)[k]
    {
      var todo := active.Keys;
      ghost var before := recovered;
      while todo != {}
        invariant todo <= active.Keys
        invariant recovered.Keys == before.Keys + ((active.Keys - todo) - currentByKey.Keys - terminalKeys)
        invariant forall k :: k in active && k !in todo && k !in currentByKey && k !in terminalKeys ==>
                                recovered[k] == Recovered(active[k].(retryable := false), clock(k))
        invariant forall k :: k in before && (k !in active || k in todo || k in currentByKey || k in terminalKeys) ==>
                                recovered[k] == before[k]
        decreases todo
      {
        var k :| k in todo;
        if k !in currentByKey && k !in terminalKeys {
          recovered := recovered[k := Recovered(active[k].(retryable := false), clock(k))];
        }
        todo := todo - {k};
      }
    }

    /** A recovered key with the smallest time. */
    method Oldest() returns (oldest: Key)
      requires |recovered| > 0
      ensures oldest in recovered && forall k :: k in recovered ==> recovered[oldest].at <= recovered[k].at
    {
      var todo := recovered.Keys;
      assert todo != {};
      oldest :| oldest in todo;
      todo := todo - {oldest};
      while todo != {}
        invariant todo <= recovered.Keys && oldest in recovered
        invariant forall k :: k in recovered && k !in todo ==> recovered[oldest].at <= recovered[k].at
        decreases todo
      {
        var k :| k in todo;
        if recovered[k].at < recovered[oldest].at {
          oldest := k;
        }
        todo := todo - {k};
      }
    }
  }
}
