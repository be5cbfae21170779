/** Publishing create commands: any number of callers, interleaved with receipts,
    timeouts and restarts.  The program runs the callers under one lock; the machine
    lets them overlap at every step, so its guarantees do not rest on that lock. */
module CreatePublication {
  import opened Wrappers
  import opened CreateJournalModel

  type Caller = nat

  /** Where a call of `create` is. */
  datatype Pc =
    | Checked(id: RequestId, intent: string, command: Command)   // replay found no row
    | Owner(id: RequestId)                                       // prepare created the row
    | Marking(id: RequestId, state: State, error: Option<string>)

  datatype World = World(rows: Rows, callers: map<Caller, Pc>, published: seq<RequestId>)

  predicate Leave(w: World, w': World, t: Caller) {
    t in w.callers && w' == w.(callers := w.callers - {t})
  }

  predicate Begin(w: World, w': World, t: Caller, id: RequestId, intent: string, c: Command) {
    t !in w.callers && id !in w.rows && w' == w.(callers := w.callers[t := Checked(id, intent, c)])
  }

  /** Only the call whose insertion succeeded goes on; the others return what is stored. */
  predicate Prepares(w: World, w': World, t: Caller) {
    && t in w.callers && w.callers[t].Checked?
    && var Checked(id, intent, c) := w.callers[t];
    if PrepareResult(w.rows, id, intent, c) == Success(true)
    then w' == w.(rows := Prepare(w.rows, id, intent, c), callers := w.callers[t := Owner(id)])
    else w' == w.(callers := w.callers - {t})
  }

  predicate NoPublisher(w: World, w': World, t: Caller) {
    && t in w.callers && w.callers[t].Owner?
    && w' == w.(callers := w.callers[t := Marking(w.callers[t].id, Failed, Some("desktop_relay_unavailable"))])
  }

  /** The command leaves; how the relay answered decides the mark that follows. */
  predicate Publishes(w: World, w': World, t: Caller, state: State, error: Option<string>) {
    && t in w.callers && w.callers[t].Owner?
    && (state.Failed? || state.Unknown? || state.Submitted?)
    && w' == w.(callers := w.callers[t := Marking(w.callers[t].id, state, error)],
                published := w.published + [w.callers[t].id])
  }

  predicate Marks(w: World, w': World, t: Caller, at: int) {
    && t in w.callers && w.callers[t].Marking?
    && var Marking(id, state, error) := w.callers[t];
    w' == w.(rows := Mark(w.rows, id, state, error, at), callers := w.callers - {t})
  }

  /** Receipts and timeouts reach the journal at any moment. */
  predicate Arrives(w: World, w': World, e: Event) {
    (e.Ingested? || e.Swept?) && w' == w.(rows := Apply(w.rows, e))
  }

  /** A restart forgets every call in progress. */
  predicate Restarts(w: World, w': World, at: int) {
    w' == w.(rows := Restart(w.rows, at), callers := map[])
  }

  datatype Label =
    | LLeave(t: Caller)
    | LBegin(t: Caller, id: RequestId, intent: string, command: Command)
    | LPrepare(t: Caller)
    | LNoPublisher(t: Caller)
    | LPublish(t: Caller, state: State, error: Option<string>)
    | LMark(t: Caller, at: int)
    | LArrive(e: Event)
    | LRestart(at: int)

  predicate Step(w: World, w': World, l: Label) {
    match l
    case LLeave(t) => Leave(w, w', t)
    case LBegin(t, id, intent, c) => Begin(w, w', t, id, intent, c)
    case LPrepare(t) => Prepares(w, w', t)
    case LNoPublisher(t) => NoPublisher(w, w', t)
    case LPublish(t, state, error) => Publishes(w, w', t, state, error)
    case LMark(t, at) => Marks(w, w', t, at)
    case LArrive(e) => Arrives(w, w', e)
    case LRestart(at) => Restarts(w, w', at)
  }

  ghost predicate IsRun(run: seq<World>, labels: seq<Label>) {
    && |run| == |labels| + 1
    && run[0] == World(map[], map[], [])
    && forall i :: 0 <= i < |labels| ==> Step(run[i], run[i + 1], labels[i])
  }

  function Times(published: seq<RequestId>, id: RequestId): nat {
    multiset(published)[id]
  }

  predicate Owns(w: World, t: Caller, id: RequestId) {
    t in w.callers && w.callers[t] == Owner(id)
  }

  /** Being published and being owned both use up the one creation of the row. */
  ghost predicate Inv(w: World) {
    && (forall id :: Times(w.published, id) <= 1)
    && (forall id :: Times(w.published, id) > 0 ==> id in w.rows && !w.rows[id].orphan)
    && (forall t, id :: Owns(w, t, id) ==> id in w.rows && !w.rows[id].orphan && Times(w.published, id) == 0)
    && (forall t, u, id :: Owns(w, t, id) && Owns(w, u, id) ==> t == u)
  }

  lemma TimesAfter(published: seq<RequestId>, id: RequestId, k: RequestId)
    ensures Times(published + [id], k) == Times(published, k) + if k == id then 1 else 0
  {
  }

  lemma PublishesKeepsInv(w: World, w': World, t: Caller, state: State, error: Option<string>)
    requires Inv(w) && Publishes(w, w', t, state, error)
    ensures Inv(w')
  {
    hide Times;
    var id := w.callers[t].id;
    assert Owns(w, t, id);
    forall k ensures Times(w'.published, k) == Times(w.published, k) + if k == id then 1 else 0 {
      TimesAfter(w.published, id, k);
    }
    forall u, k | Owns(w', u, k) ensures Owns(w, u, k) && k != id {
    }
  }

  lemma RowsKeepInv(w: World, rows: Rows)
    requires Inv(w)
    requires forall id :: id in w.rows ==> id in rows && rows[id].orphan == w.rows[id].orphan
    ensures Inv(w.(rows := rows))
  {
    var w' := w.(rows := rows);
    forall t, id | Owns(w', t, id) ensures Owns(w, t, id) {
    }
  }

  lemma FewerCallersKeepInv(w: World, w': World)
    requires Inv(w) && w'.rows == w.rows && w'.published == w.published
    requires forall t, id :: Owns(w', t, id) ==> Owns(w, t, id)
    ensures Inv(w')
  {
  }

  lemma PreparesKeepsInv(w: World, w': World, t: Caller)
    requires Inv(w) && Prepares(w, w', t)
    ensures Inv(w')
  {
    hide Times;
    var Checked(id, intent, c) := w.callers[t];
    if PrepareResult(w.rows, id, intent, c) == Success(true) {
      forall u, k | Owns(w', u, k) ensures if k == id then u == t else Owns(w, u, k) {
        assert u != t ==> Owns(w, u, k);
      }
    } else {
      FewerCallersKeepInv(w, w');
    }
  }

  lemma StepKeepsInv(w: World, w': World, l: Label)
    requires Inv(w) && Step(w, w', l)
    ensures Inv(w')
  {
    hide Times;
    match l
    case LPublish(t, state, error) => PublishesKeepsInv(w, w', t, state, error);
    case LMark(t, at) =>
      RowsKeepInv(w, w'.rows);
      FewerCallersKeepInv(w.(rows := w'.rows), w');
    case LRestart(at) =>
      RowsKeepInv(w, w'.rows);
      FewerCallersKeepInv(w.(rows := w'.rows), w');
    case LArrive(e) =>
      forall id | id in w.rows ensures id in w'.rows && w'.rows[id].orphan == w.rows[id].orphan {
        ApplyContinues(w.rows, e, id);
      }
      RowsKeepInv(w, w'.rows);
    case LPrepare(t) => PreparesKeepsInv(w, w', t);
    case _ => FewerCallersKeepInv(w, w');
  }

  lemma {:induction false} RunKeepsInv(run: seq<World>, labels: seq<Label>, i: nat)
    requires IsRun(run, labels) && i < |run|
    ensures Inv(run[i])
  {
    if i == 0 {
    } else {
      RunKeepsInv(run, labels, i - 1);
      StepKeepsInv(run[i - 1], run[i], labels[i - 1]);
    }
  }

  /** Over every run a command is published at most once, and only for a row its own call prepared. */
  lemma PublishedAtMostOnce(run: seq<World>, labels: seq<Label>, i: nat, id: RequestId)
    requires IsRun(run, labels) && i < |run|
    ensures Times(run[i].published, id) <= 1
    ensures Times(run[i].published, id) > 0 ==> id in run[i].rows && !run[i].rows[id].orphan
  {
    RunKeepsInv(run, labels, i);
  }

  /** At step `j` the call of `t` inserted the row of `id`. */
  ghost predicate Created(run: seq<World>, labels: seq<Label>, j: nat, t: Caller, id: RequestId)
    requires |run| == |labels| + 1
  {
    && j < |labels| && labels[j] == LPrepare(t)
    && t in run[j].callers && run[j].callers[t].Checked? && run[j].callers[t].id == id
    && id !in run[j].rows
    && id in run[j + 1].rows && run[j + 1].rows[id] == FreshRow(run[j].callers[t].intent, run[j].callers[t].command)
  }

  /** From `j` to `i` the call of `t` has been the owner of the row. */
  ghost predicate OwnsThroughout(run: seq<World>, j: nat, i: nat, t: Caller, id: RequestId)
    requires i < |run|
  {
    forall m :: j < m <= i ==> Owns(run[m], t, id)
  }

  lemma StepMakesOwner(w: World, w': World, l: Label, t: Caller, id: RequestId)
    requires Step(w, w', l) && Owns(w', t, id) && !Owns(w, t, id)
    ensures l == LPrepare(t) && t in w.callers && w.callers[t].Checked? && w.callers[t].id == id
    ensures id !in w.rows && id in w'.rows && w'.rows[id] == FreshRow(w.callers[t].intent, w.callers[t].command)
  {
  }

  lemma {:induction false} OwnerHasCreated(run: seq<World>, labels: seq<Label>, i: nat, t: Caller, id: RequestId) returns (j: nat)
    requires IsRun(run, labels) && i < |run| && Owns(run[i], t, id)
    ensures j < i && Created(run, labels, j, t, id) && OwnsThroughout(run, j, i, t, id)
  {
    hide Step;
    if i == 0 {
      assert false;
    } else if Owns(run[i - 1], t, id) {
      j := OwnerHasCreated(run, labels, i - 1, t, id);
    } else {
      StepMakesOwner(run[i - 1], run[i], labels[i - 1], t, id);
      j := i - 1;
    }
  }

  /** Whoever publishes a command is the very call that inserted its row, and has owned it since. */
  lemma PublisherHasCreated(run: seq<World>, labels: seq<Label>, i: nat)
    requires IsRun(run, labels) && i < |labels| && labels[i].LPublish?
    ensures labels[i].t in run[i].callers && run[i].callers[labels[i].t].Owner?
    ensures var t, id := labels[i].t, run[i].callers[labels[i].t].id;
            && run[i + 1].published == run[i].published + [id]
            && exists j: nat :: j < i && Created(run, labels, j, t, id) && OwnsThroughout(run, j, i, t, id)
  {
    assert Step(run[i], run[i + 1], labels[i]);
    var j := OwnerHasCreated(run, labels, i, labels[i].t, run[i].callers[labels[i].t].id);
  }

  lemma StepKeepsOrphan(w: World, w': World, l: Label, id: RequestId)
    requires Step(w, w', l) && id in w.rows
    ensures id in w'.rows && w'.rows[id].orphan == w.rows[id].orphan
  {
    if l.LArrive? {
      ApplyContinues(w.rows, l.e, id);
    }
  }

  /** An id first seen as an orphan receipt is never published, before or after. */
  lemma OrphanIsNeverPublished(run: seq<World>, labels: seq<Label>, i: nat, j: nat, id: RequestId)
    requires IsRun(run, labels) && i < |run| && j < |run|
    requires id in run[i].rows && run[i].rows[id].orphan
    ensures Times(run[j].published, id) == 0
  {
    RunKeepsInv(run, labels, j);
    if i <= j {
      OrphanFlagStays(run, labels, i, j, id);
    } else if Times(run[j].published, id) > 0 {
      OrphanFlagStays(run, labels, j, i, id);
    }
  }

  lemma {:induction false} OrphanFlagStays(run: seq<World>, labels: seq<Label>, i: nat, j: nat, id: RequestId)
    requires IsRun(run, labels) && i <= j < |run| && id in run[i].rows
    ensures id in run[j].rows && run[j].rows[id].orphan == run[i].rows[id].orphan
  {
    if i == j {
    } else {
      OrphanFlagStays(run, labels, i, j - 1, id);
      StepKeepsOrphan(run[j - 1], run[j], labels[j - 1], id);
    }
  }
}
