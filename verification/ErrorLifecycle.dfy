/** Current, recovered and historical errors: how one call of the tracker follows another. */
module ErrorLifecycle {
  import opened Wrappers
  import opened Sets

  const KEPT := 50

  /** Source and public reference of an incident; its diagnosis is not part of the key. */
  type Key = (string, string)

  datatype Item = Item(origin: string, reference: string, code: string, retryable: bool)

  datatype Recovered = Recovered(item: Item, at: int)

  function ItemKey(item: Item): Key {
    (item.origin, item.reference)
  }

  /** Two items are one incident exactly when origin and reference agree, whatever their diagnosis. */
  lemma OneIncident(a: Item, b: Item)
    ensures ItemKey(a) == ItemKey(b) <==> a.origin == b.origin && a.reference == b.reference
  {
  }

  /** `terminal` are the keys shown as historical by the last call. */
  datatype State = State(active: map<Key, Item>, recovered: map<Key, Recovered>, terminal: set<Key>)

  /** The later of two items with one key stands. */
  function ByKey(items: seq<Item>): (m: map<Key, Item>)
    ensures forall k :: k in m <==> exists i :: 0 <= i < |items| && ItemKey(items[i]) == k
    ensures forall k :: k in m ==> m[k] in items && ItemKey(m[k]) == k
  {
    if items == [] then map[] else
      var last := items[|items| - 1];
      ByKey(items[..|items| - 1])[ItemKey(last) := last]
  }

  /** The recovered items before any are evicted: the old ones and those that have just gone,
      without whatever is now current or terminal. */
  ghost predicate Gathers(s: State, current: map<Key, Item>, terminal: set<Key>, gathered: map<Key, Recovered>) {
    && gathered.Keys == (s.recovered.Keys + s.active.Keys) - current.Keys - terminal
    && (forall k :: k in gathered && k in s.active ==> gathered[k].item == s.active[k].(retryable := false))
    && (forall k :: k in gathered && k !in s.active ==> gathered[k] == s.recovered[k])
  }

  /** The newest `KEPT` stay: nothing kept is older than anything evicted. */
  ghost predicate Evicts(gathered: map<Key, Recovered>, kept: map<Key, Recovered>) {
    && (forall k :: k in kept ==> k in gathered && kept[k] == gathered[k])
    && |kept| == (if |gathered| <= KEPT then |gathered| else KEPT)
    && (forall e, k :: e in gathered && e !in kept && k in kept ==> gathered[e].at <= kept[k].at)
  }

  ghost predicate Tracks(s: State, s': State, current: seq<Item>, terminal: set<Key>, gathered: map<Key, Recovered>) {
    && Gathers(s, ByKey(current), terminal, gathered)
    && Evicts(gathered, s'.recovered)
    && s'.active == ByKey(current) && s'.terminal == terminal
  }

  datatype Call = Call(current: seq<Item>, terminal: set<Key>, gathered: map<Key, Recovered>)

  ghost predicate IsRun(run: seq<State>, calls: seq<Call>) {
    && |run| == |calls| + 1
    && run[0] == State(map[], map[], {})
    && forall i :: 0 <= i < |calls| ==> Tracks(run[i], run[i + 1], calls[i].current, calls[i].terminal, calls[i].gathered)
  }

  predicate Inv(s: State) {
    && s.recovered.Keys !! s.active.Keys
    && s.recovered.Keys !! s.terminal
    && |s.recovered| <= KEPT
  }

  /** Over every run of calls a recovered key is neither current nor terminal, and at most 50 are kept. */
  lemma RecoveredStandsApart(run: seq<State>, calls: seq<Call>, i: nat)
    requires IsRun(run, calls) && i < |run|
    ensures Inv(run[i])
  {
    if i > 0 {
      hide Tracks;
      var c := calls[i - 1];
      TrackingSeparates(run[i - 1], run[i], c);
    }
  }

  lemma TrackingSeparates(s: State, s': State, c: Call)
    requires Tracks(s, s', c.current, c.terminal, c.gathered)
    ensures Inv(s')
  {
    forall k | k in s'.recovered ensures k in c.gathered && k !in s'.active && k !in s'.terminal {
    }
  }

  lemma {:induction false} MapsAgree(a: map<Key, Recovered>, b: map<Key, Recovered>)
    requires |a| == |b| && forall k :: k in a ==> k in b && b[k] == a[k]
    ensures a == b
  {
    assert a.Keys <= b.Keys;
    SameSizeSubset(a.Keys, b.Keys);
  }

  /** Nothing kept is older than this. */
  ghost predicate NoneOlder(kept: map<Key, Recovered>, at: int) {
    forall k :: k in kept ==> at <= kept[k].at
  }

  /** A key enters the recovered ones only by having been active in the previous call and being
      neither current nor terminal now; and every such key does enter them, unless more than 50
      compete and at least 50 are no older. */
  lemma RecoveryIsExact(run: seq<State>, calls: seq<Call>, i: nat, k: Key)
    requires IsRun(run, calls) && i < |calls|
    ensures var gone := k in run[i].active && k !in ByKey(calls[i].current) && k !in calls[i].terminal;
            && (k in run[i + 1].recovered && k !in run[i].recovered ==> gone)
            && (gone && |calls[i].gathered| <= KEPT ==>
                  k in run[i + 1].recovered && run[i + 1].recovered[k].item == run[i].active[k].(retryable := false))
            && (gone && k !in run[i + 1].recovered ==>
                  && |run[i + 1].recovered| == KEPT && k in calls[i].gathered
                  && NoneOlder(run[i + 1].recovered, calls[i].gathered[k].at))
  {
    RecoveredStandsApart(run, calls, i);
    var s, s', c := run[i], run[i + 1], calls[i];
    assert Tracks(s, s', c.current, c.terminal, c.gathered);
    if |c.gathered| <= KEPT {
      MapsAgree(s'.recovered, c.gathered);
    }
  }

  /** A recovered item leaves only by coming back, by becoming terminal, or as one of the oldest of
      more than 50; while it stays it does not change. */
  lemma RecoveredStays(run: seq<State>, calls: seq<Call>, i: nat, k: Key)
    requires IsRun(run, calls) && i < |calls| && k in run[i].recovered
    requires k !in ByKey(calls[i].current) && k !in calls[i].terminal
    ensures if k in run[i + 1].recovered then run[i + 1].recovered[k] == run[i].recovered[k]
            else |calls[i].gathered| > KEPT && |run[i + 1].recovered| == KEPT
                 && NoneOlder(run[i + 1].recovered, run[i].recovered[k].at)
  {
    RecoveredStandsApart(run, calls, i);
    var s, s', c := run[i], run[i + 1], calls[i];
    assert Tracks(s, s', c.current, c.terminal, c.gathered);
    assert k in c.gathered && k !in s.active;
    if |c.gathered| <= KEPT {
      MapsAgree(s'.recovered, c.gathered);
    }
  }

  /** The key is gone although `KEPT` are kept, all of them recovered at this time or later. */
  ghost predicate Outlived(s: State, k: Key, at: int) {
    k !in s.recovered && |s.recovered| == KEPT && NoneOlder(s.recovered, at)
  }

  /** Over any run in which an item does not come back, it stays recovered, unchanged, unless at some
      call 50 others stood that had recovered no earlier. */
  lemma {:induction false} RecoveredUntilOutlived(run: seq<State>, calls: seq<Call>, i: nat, j: nat, k: Key)
    requires IsRun(run, calls) && i <= j < |run| && k in run[i].recovered
    requires forall m :: i <= m < j ==> k !in ByKey(calls[m].current) && k !in calls[m].terminal
    ensures (k in run[j].recovered && run[j].recovered[k] == run[i].recovered[k])
            || OutlivedWithin(run, i, j, k, run[i].recovered[k].at)
  {
    if i == j {
    } else {
      hide Outlived, ByKey, Tracks;
      RecoveredUntilOutlived(run, calls, i, j - 1, k);
      if k in run[j - 1].recovered && run[j - 1].recovered[k] == run[i].recovered[k] {
        OneCallKeeps(run, calls, j - 1, k);
        assert k !in run[j].recovered || run[j].recovered[k] != run[i].recovered[k] ==> Outlived(run[j], k, run[i].recovered[k].at);
      }
    }
  }

  ghost predicate OutlivedWithin(run: seq<State>, i: nat, j: nat, k: Key, at: int)
    requires j < |run|
  {
    exists m :: i < m <= j && Outlived(run[m], k, at)
  }

  lemma OneCallKeeps(run: seq<State>, calls: seq<Call>, i: nat, k: Key)
    requires IsRun(run, calls) && i < |calls| && k in run[i].recovered
    requires k !in ByKey(calls[i].current) && k !in calls[i].terminal
    ensures (k in run[i + 1].recovered && run[i + 1].recovered[k] == run[i].recovered[k])
            || Outlived(run[i + 1], k, run[i].recovered[k].at)
  {
    hide IsRun;
    RecoveredStays(run, calls, i, k);
  }

  // ---------------------------------------------------------------- pages

  datatype Page<T> = Page(visible: seq<T>, next: Option<nat>)

  function PageOf<T>(items: seq<T>, cursor: nat, limit: nat): (p: Page<T>)
    requires 1 <= limit <= 50
    ensures p.next.Some? ==> cursor < p.next.value < |items|
    ensures |p.visible| <= limit && (p.next.Some? ==> |p.visible| == limit && p.next.value == cursor + limit)
  {
    var from := if cursor <= |items| then cursor else |items|;
    var to := if cursor + limit <= |items| then cursor + limit else |items|;
    var visible := if from <= to then items[from..to] else [];
    var next := cursor + |visible|;
    Page(visible, if next < |items| then Some(next) else None)
  }

  /** All that a client sees who follows the cursors from `cursor` on. */
  function Follow<T>(items: seq<T>, cursor: nat, limit: nat): seq<T>
    requires 1 <= limit <= 50
    decreases |items| - cursor
  {
    var p := PageOf(items, cursor, limit);
    p.visible + if p.next.None? then [] else Follow(items, p.next.value, limit)
  }

  /** Following the cursors from the start shows every item once, in order. */
  lemma {:induction false} PagesCoverTheItems<T>(items: seq<T>, cursor: nat, limit: nat)
    requires 1 <= limit <= 50 && cursor <= |items|
    ensures Follow(items, cursor, limit) == items[cursor..]
    decreases |items| - cursor
  {
    var p := PageOf(items, cursor, limit);
    if p.next.None? {
    } else {
      PagesCoverTheItems(items, p.next.value, limit);
    }
  }
}
