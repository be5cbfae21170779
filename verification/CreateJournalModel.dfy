/** The create-request journal as a table and the five events that change it.

    Local marks, receipts from the Runner, timeouts and restarts may reach the table
    in any order; the lemmas below hold for every sequence of them. */
module CreateJournalModel {
  import opened Wrappers

  type RequestId = string

  datatype State = Pending | Submitted | Accepted | Confirmed | Conflict | Expired | Failed | Unknown | RecoveryRequired

  type ReceiptState = s: State | !s.Pending? && !s.Submitted? witness Accepted

  /** `expiresAt` is None when the stored command gives no readable expiry. */
  datatype Command = Command(digest: string, runner: string, host: string, project: string,
                             mode: Option<string>, createdAt: int, expiresAt: Option<int>)

  datatype Receipt = Receipt(digest: string, runner: string, host: string, project: string,
                             mode: Option<string>, state: ReceiptState, error: Option<string>,
                             refs: string, createdAt: int)
  {
    predicate Terminal() {
      !state.Accepted?
    }
  }

  datatype Row = Row(intent: string, digest: string, runner: string, host: string, project: string,
                     state: State, error: Option<string>, command: Option<Command>, receipt: Option<Receipt>,
                     createdAt: int, updatedAt: int, orphan: bool,
                     relayAt: Option<int>, runnerAt: Option<int>, macAt: Option<int>)

  type Rows = map<RequestId, Row>

  datatype Event =
    | Restarted(at: int)
    | Prepared(id: RequestId, intent: string, command: Command)
    | Marked(id: RequestId, state: State, error: Option<string>, at: int)
    | Ingested(id: RequestId, receipt: Receipt)
    | Swept(now: int)

  // ---------------------------------------------------------------- operations

  function Coalesce(stamp: Option<int>, at: int): Option<int> {
    if stamp.Some? then stamp else Some(at)
  }

  /** The digest column is unique over the whole table. */
  predicate DigestTaken(rows: Rows, digest: string) {
    exists id :: id in rows && rows[id].digest == digest
  }

  /** A command still pending when the process starts was never confirmed as delivered. */
  function RestartRow(row: Row, at: int): Row {
    if row.state.Pending?
    then row.(state := Unknown, error := Some("controller_restarted_before_delivery"), updatedAt := at)
    else row
  }

  function Restart(rows: Rows, at: int): Rows {
    map id | id in rows :: RestartRow(rows[id], at)
  }

  function FreshRow(intent: string, c: Command): Row {
    Row(intent, c.digest, c.runner, c.host, c.project, Pending, None, Some(c), None,
        c.createdAt, c.createdAt, false, None, None, None)
  }

  function OrphanRow(d: Receipt): Row {
    Row("orphan:" + d.digest, d.digest, d.runner, d.host, d.project, RecoveryRequired,
        Some("desktop_command_unknown"), None, Some(d), d.createdAt, d.createdAt, true, None, None, None)
  }

  /** Success(true) when this call created the row. */
  function PrepareResult(rows: Rows, id: RequestId, intent: string, c: Command): Result<bool, string> {
    if id in rows then
      if rows[id].intent != intent then Failure("desktop_request_conflict") else Success(false)
    else if DigestTaken(rows, c.digest) then Failure("integrity_error")
    else Success(true)
  }

  function Prepare(rows: Rows, id: RequestId, intent: string, c: Command): Rows {
    if PrepareResult(rows, id, intent, c) == Success(true) then rows[id := FreshRow(intent, c)] else rows
  }

  function MarkRow(row: Row, state: State, error: Option<string>, at: int): Row {
    if row.state.Pending? then
      row.(state := state, error := error, updatedAt := at,
           relayAt := if state.Submitted? then Coalesce(row.relayAt, at) else row.relayAt)
    else if state.Submitted? then
      row.(relayAt := Coalesce(row.relayAt, at))
    else row
  }

  function Mark(rows: Rows, id: RequestId, state: State, error: Option<string>, at: int): Rows {
    if id in rows then rows[id := MarkRow(rows[id], state, error, at)] else rows
  }

  predicate SameBinding(row: Row, d: Receipt) {
    row.runner == d.runner && row.host == d.host && row.project == d.project
  }

  predicate SameMode(row: Row, d: Receipt) {
    row.command.Some? ==> row.command.value.mode == d.mode
  }

  datatype IngestStatus = Stored(orphan: bool) | DuplicateReceipt | StaleReceipt

  function IngestResult(rows: Rows, id: RequestId, d: Receipt): Result<IngestStatus, string> {
    if id !in rows then
      if DigestTaken(rows, d.digest) then Failure("integrity_error") else Success(Stored(true))
    else
      var row := rows[id];
      if !SameBinding(row, d) || !SameMode(row, d) then Failure("desktop_receipt_binding_conflict")
      else if row.receipt == Some(d) then Success(DuplicateReceipt)
      else if row.receipt.Some? && row.receipt.value.Terminal() && !d.Terminal() then Success(StaleReceipt)
      else if row.receipt.Some? && (row.receipt.value.Terminal() || !d.Terminal()) then Failure("desktop_receipt_conflict")
      else Success(Stored(false))
  }

  function StoreReceipt(row: Row, d: Receipt): Row {
    row.(state := d.state, error := d.error, receipt := Some(d), updatedAt := d.createdAt,
         runnerAt := if d.state.Accepted? then Coalesce(row.runnerAt, d.createdAt) else row.runnerAt,
         macAt := if d.state.Confirmed? then Coalesce(row.macAt, d.createdAt) else row.macAt)
  }

  function Ingest(rows: Rows, id: RequestId, d: Receipt): Rows {
    match IngestResult(rows, id, d)
    case Success(Stored(true)) => rows[id := OrphanRow(d)]
    case Success(Stored(false)) => if id in rows then rows[id := StoreReceipt(rows[id], d)] else rows
    case _ => rows
  }

  predicate Overdue(row: Row, now: int) {
    && (row.state.Submitted? || row.state.Accepted?)
    && (row.command.None? || row.command.value.expiresAt.None? || row.command.value.expiresAt.value <= now)
  }

  function SweepRow(row: Row, now: int): Row {
    if Overdue(row, now)
    then row.(state := Unknown, error := Some("desktop_receipt_timeout"), updatedAt := now)
    else row
  }

  function Sweep(rows: Rows, now: int): Rows {
    map id | id in rows :: SweepRow(rows[id], now)
  }

  function Apply(rows: Rows, e: Event): Rows {
    match e
    case Restarted(at) => Restart(rows, at)
    case Prepared(id, intent, c) => Prepare(rows, id, intent, c)
    case Marked(id, state, error, at) => Mark(rows, id, state, error, at)
    case Ingested(id, d) => Ingest(rows, id, d)
    case Swept(now) => Sweep(rows, now)
  }

  /** The table after a sequence of events. */
  function Replay(rows: Rows, events: seq<Event>): Rows {
    if events == [] then rows else Apply(Replay(rows, events[..|events| - 1]), events[|events| - 1])
  }

  lemma ReplayNext(rows: Rows, events: seq<Event>, e: Event)
    ensures Replay(rows, events + [e]) == Apply(Replay(rows, events), e)
  {
    assert (events + [e])[..|events|] == events;
  }

  // ---------------------------------------------------------------- what every table satisfies

  predicate RowInv(row: Row) {
    && (row.orphan <==> row.command.None?)
    && (row.orphan ==> row.receipt.Some?)
       // No foreign receipt is ever stored.
    && (row.receipt.Some? ==>
          var d := row.receipt.value;
          && d.runner == row.runner && d.host == row.host && d.project == row.project
          && (row.command.Some? ==> d.mode == row.command.value.mode))
       // Only a row no receipt has reached can still be pending.
    && (row.state.Pending? ==> row.receipt.None?)
    && (row.receipt.None? ==> row.runnerAt.None? && row.macAt.None?)
    && (!row.orphan && row.receipt.Some? ==>
          var d := row.receipt.value;
          || (row.state == d.state && row.error == d.error)
          || (d.state.Accepted? && row.state.Unknown? && row.error == Some("desktop_receipt_timeout")))
  }

  ghost predicate JournalInv(rows: Rows) {
    forall id :: id in rows ==> RowInv(rows[id])
  }

  lemma ApplyKeepsInv(rows: Rows, e: Event)
    requires JournalInv(rows)
    ensures JournalInv(Apply(rows, e))
  {
  }

  lemma {:induction false} ReplayKeepsInv(rows: Rows, events: seq<Event>)
    requires JournalInv(rows)
    ensures JournalInv(Replay(rows, events))
  {
    if events == [] {
    } else {
      ReplayKeepsInv(rows, events[..|events| - 1]);
      ApplyKeepsInv(Replay(rows, events[..|events| - 1]), events[|events| - 1]);
    }
  }

  // ---------------------------------------------------------------- stages never go back

  /** How far delivery has come: 0 controller, 1 relay, 2 runner, 3 Mac. */
  function Stage(row: Row): nat {
    if row.macAt.Some? then 3 else if row.runnerAt.Some? then 2 else if row.relayAt.Some? then 1 else 0
  }

  predicate Keeps(a: Option<int>, b: Option<int>) {
    a.Some? ==> b == a
  }

  /** Row `b` may follow row `a`: what binds it is fixed and no stage time is cleared or changed. */
  predicate Continues(a: Row, b: Row) {
    && b.intent == a.intent && b.digest == a.digest && b.orphan == a.orphan && b.command == a.command
    && b.runner == a.runner && b.host == a.host && b.project == a.project && b.createdAt == a.createdAt
    && Keeps(a.relayAt, b.relayAt) && Keeps(a.runnerAt, b.runnerAt) && Keeps(a.macAt, b.macAt)
    && (a.receipt.Some? && a.receipt.value.Terminal() ==> b.receipt == a.receipt)
  }

  lemma IngestContinues(rows: Rows, k: RequestId, d: Receipt, id: RequestId)
    requires id in rows
    ensures id in Ingest(rows, k, d) && Continues(rows[id], Ingest(rows, k, d)[id])
  {
    hide DigestTaken;
  }

  lemma ApplyContinues(rows: Rows, e: Event, id: RequestId)
    requires id in rows
    ensures id in Apply(rows, e) && Continues(rows[id], Apply(rows, e)[id])
  {
    match e
    case Ingested(k, d) => IngestContinues(rows, k, d, id);
    case _ => hide Ingest;
  }

  lemma ContinuesTransitive(a: Row, b: Row, c: Row)
    requires Continues(a, b) && Continues(b, c)
    ensures Continues(a, c)
  {
  }

  /** Rows never disappear, their bindings and stage times never change, and so the
      delivery stage never goes back, over every sequence of events. */
  lemma {:induction false} StagesNeverGoBack(rows: Rows, events: seq<Event>, id: RequestId)
    requires id in rows
    ensures id in Replay(rows, events) && Continues(rows[id], Replay(rows, events)[id])
    ensures Stage(rows[id]) <= Stage(Replay(rows, events)[id])
  {
    if events == [] {
    } else {
      var before := Replay(rows, events[..|events| - 1]);
      StagesNeverGoBack(rows, events[..|events| - 1], id);
      ApplyContinues(before, events[|events| - 1], id);
      ContinuesTransitive(rows[id], before[id], Replay(rows, events)[id]);
    }
  }

  // ---------------------------------------------------------------- receipts converge

  /** In every reachable table a stored receipt came from the Runner, host and project that its row
      is bound to, and a prepared row's in the mode of its command. */
  lemma StoredReceiptIsBound(events: seq<Event>, id: RequestId)
    requires id in Replay(map[], events) && Replay(map[], events)[id].receipt.Some?
    ensures var row := Replay(map[], events)[id];
            var d := row.receipt.value;
            && d.runner == row.runner && d.host == row.host && d.project == row.project
            && (!row.orphan ==> row.command.Some? && d.mode == row.command.value.mode)
  {
    ReplayKeepsInv(map[], events);
    assert RowInv(Replay(map[], events)[id]);
  }

  /** What the caller sees of a request: (state, error code, receipt) are this receipt's. */
  predicate Concluded(row: Row, t: Receipt) {
    t.Terminal() && row.state == t.state && row.error == t.error && row.receipt == Some(t)
  }

  lemma ApplyKeepsConclusion(rows: Rows, e: Event, id: RequestId, t: Receipt)
    requires id in rows && Concluded(rows[id], t)
    ensures id in Apply(rows, e) && Concluded(Apply(rows, e)[id], t)
  {
    match e
    case Ingested(k, d) => assert k != id ==> Ingest(rows, k, d)[id] == rows[id];
    case _ =>
  }

  lemma {:induction false} ConclusionIsForever(rows: Rows, events: seq<Event>, id: RequestId, t: Receipt)
    requires id in rows && Concluded(rows[id], t)
    ensures id in Replay(rows, events) && Concluded(Replay(rows, events)[id], t)
  {
    if events == [] {
    } else {
      hide Apply, Concluded;
      ConclusionIsForever(rows, events[..|events| - 1], id, t);
      ApplyKeepsConclusion(Replay(rows, events[..|events| - 1]), events[|events| - 1], id, t);
    }
  }

  /** In every reachable table, a prepared row with a terminal receipt shows that receipt, for ever. */
  lemma TerminalReceiptDecides(events: seq<Event>, later: seq<Event>, id: RequestId)
    requires var row := Replay(map[], events);
             id in row && !row[id].orphan && row[id].receipt.Some? && row[id].receipt.value.Terminal()
    ensures var rows := Replay(map[], events);
            id in Replay(rows, later) && Concluded(Replay(rows, later)[id], rows[id].receipt.value)
  {
    ReplayKeepsInv(map[], events);
    var rows := Replay(map[], events);
    assert RowInv(rows[id]);
    ConclusionIsForever(rows, later, id, rows[id].receipt.value);
  }

  /** The request has reached `t`, or only accepted receipts so far. */
  predicate Converging(row: Row, t: Receipt, arrived: bool) {
    && !row.orphan && SameBinding(row, t) && SameMode(row, t)
    && if arrived then Concluded(row, t) else row.receipt.Some? ==> !row.receipt.value.Terminal()
  }

  lemma ReceiptKeepsConverging(rows: Rows, id: RequestId, d: Receipt, t: Receipt, arrived: bool)
    requires t.Terminal() && id in rows && Converging(rows[id], t, arrived) && (!d.Terminal() || d == t)
    ensures id in Ingest(rows, id, d) && Converging(Ingest(rows, id, d)[id], t, arrived || d == t)
  {
  }

  lemma OtherKeepsConverging(rows: Rows, e: Event, id: RequestId, t: Receipt, arrived: bool)
    requires t.Terminal() && id in rows && Converging(rows[id], t, arrived)
    requires e.Ingested? ==> e.id != id
    ensures id in Apply(rows, e) && Converging(Apply(rows, e)[id], t, arrived)
  {
    match e
    case Ingested(k, d) => assert id in Ingest(rows, k, d) && Ingest(rows, k, d)[id] == rows[id];
    case _ =>
  }

  /** For a prepared request whose receipts are accepted ones and one terminal one, in any
      order and repetition, interleaved with anything else: the terminal one decides. */
  lemma {:induction false} ReceiptsConverge(rows: Rows, events: seq<Event>, id: RequestId, t: Receipt)
    requires id in rows && t.Terminal() && Converging(rows[id], t, rows[id].receipt == Some(t))
    requires forall d :: Ingested(id, d) in events ==> !d.Terminal() || d == t
    ensures id in Replay(rows, events)
    ensures Converging(Replay(rows, events)[id], t, Ingested(id, t) in events || rows[id].receipt == Some(t))
  {
    if events == [] {
    } else {
      var init, e := events[..|events| - 1], events[|events| - 1];
      assert events == init + [e];
      ReceiptsConverge(rows, init, id, t);
      var arrived := Ingested(id, t) in init || rows[id].receipt == Some(t);
      if e.Ingested? && e.id == id {
        ReceiptKeepsConverging(Replay(rows, init), id, e.receipt, t, arrived);
      } else {
        OtherKeepsConverging(Replay(rows, init), e, id, t, arrived);
      }
    }
  }

  /** The two orders of an accepted and a terminal receipt agree on all but the time the
      Runner was reached, which the late accepted receipt no longer sets; so the delivery
      stages agree exactly when the terminal receipt is a confirmation. */
  lemma OrdersDifferOnlyInRunnerTime(rows: Rows, id: RequestId, a: Receipt, t: Receipt)
    requires JournalInv(rows) && id in rows && !rows[id].orphan && rows[id].receipt.None?
    requires !a.Terminal() && t.Terminal()
    requires SameBinding(rows[id], a) && SameMode(rows[id], a) && SameBinding(rows[id], t) && SameMode(rows[id], t)
    ensures var early, late := Replay(rows, [Ingested(id, a), Ingested(id, t)]), Replay(rows, [Ingested(id, t), Ingested(id, a)]);
            && id in late && id in early
            && early == late[id := late[id].(runnerAt := Some(a.createdAt))] && late[id].runnerAt.None?
            && (Stage(early[id]) == Stage(late[id]) <==> t.state.Confirmed?)
  {
    hide Ingest, Replay;
    var row := rows[id];
    TwoReceipts(rows, id, a, t);
    TwoReceipts(rows, id, t, a);
    assert RowInv(row) && row.runnerAt.None? && row.macAt.None?;
    FirstReceipt(rows, id, a);
    FirstReceipt(rows, id, t);
    SecondReceipt(Ingest(rows, id, a), id, t);
    SecondReceipt(Ingest(rows, id, t), id, a);
  }

  lemma FirstReceipt(rows: Rows, id: RequestId, d: Receipt)
    requires id in rows && rows[id].receipt.None? && SameBinding(rows[id], d) && SameMode(rows[id], d)
    ensures Ingest(rows, id, d) == rows[id := StoreReceipt(rows[id], d)]
  {
  }

  /** A terminal receipt follows an accepted one; an accepted one after a terminal one is stale. */
  lemma SecondReceipt(rows: Rows, id: RequestId, d: Receipt)
    requires id in rows && rows[id].receipt.Some? && rows[id].receipt.value.Terminal() != d.Terminal()
    requires SameBinding(rows[id], d) && SameMode(rows[id], d)
    ensures Ingest(rows, id, d) == if d.Terminal() then rows[id := StoreReceipt(rows[id], d)] else rows
  {
  }

  lemma TwoReceipts(rows: Rows, id: RequestId, a: Receipt, b: Receipt)
    ensures Replay(rows, [Ingested(id, a), Ingested(id, b)]) == Ingest(Ingest(rows, id, a), id, b)
  {
    hide Ingest;
    var ea, eb := Ingested(id, a), Ingested(id, b);
    ReplayNext(rows, [], ea);
    ReplayNext(rows, [ea], eb);
    assert [] + [ea] == [ea] && [ea] + [eb] == [ea, eb];
  }
}
