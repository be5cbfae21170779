/** The journal and the create call as the program runs them, updating the table in place. */
module CreateService {
  import opened Wrappers
  import opened CreateJournalModel
  import opened CreatePublication

  /** The caller that holds the command lock. */
  const ME: Caller := 0

  class CreateJournal {
    var rows: Rows
    ghost var history: seq<Event>

    /** The table is what the recorded events made of the empty one. */
    ghost predicate Valid()
      reads this
    {
      rows == Replay(map[], history)
    }

    /** This event was applied to that table. */
    ghost predicate Grew(before: seq<Event>, table: Rows, event: Event)
      reads this
    {
      Valid() && history == before + [event] && rows == Apply(table, event)
    }

    constructor (at: int)
      ensures Grew([], map[], Restarted(at)) && rows == map[]
    {
      rows := map[];
      history := [Restarted(at)];
      new;
      ReplayNext(map[], [], Restarted(at));
    }

    /** Opens the table again: pending rows were never confirmed as delivered. */
    method Reopen(at: int)
      requires Valid()
      modifies this
      ensures Grew(old(history), old(rows), Restarted(at)) && rows.Keys == old(rows).Keys
      ensures forall id :: id in rows ==>
                rows[id] == if old(rows)[id].state != Pending then old(rows)[id]
                            else old(rows)[id].(state := Unknown, error := Some("controller_restarted_before_delivery"), updatedAt := at)
    {
      hide Replay;
      var todo := rows.Keys;
      ghost var before := rows;
      while todo != {}
        invariant todo <= before.Keys == rows.Keys
        invariant forall id :: id in before ==>
                    rows[id] == if id in todo then before[id] else RestartRow(before[id], at)
        invariant history == old(history)
        decreases todo
      {
        var id :| id in todo;
        if rows[id].state.Pending? {
          rows := rows[id := rows[id].(state := Unknown, error := Some("controller_restarted_before_delivery"), updatedAt := at)];
        }
        todo := todo - {id};
      }
      assert rows == Restart(before, at);
      ReplayNext(map[], history, Restarted(at));
      history := history + [Restarted(at)];
    }

    /** The stored row, and whether this call created it; an error leaves the table alone. */
    method Prepare(id: RequestId, intent: string, c: Command) returns (result: Result<(Row, bool), string>)
      requires Valid()
      modifies this
      ensures Grew(old(history), old(rows), Prepared(id, intent, c))
      ensures id in old(rows) ==>
                && rows == old(rows)
                && result == if rows[id].intent == intent then Success((rows[id], false)) else Failure("desktop_request_conflict")
      ensures id !in old(rows) && DigestTaken(old(rows), c.digest) ==> rows == old(rows) && result == Failure("integrity_error")
      ensures id !in old(rows) && !DigestTaken(old(rows), c.digest) ==>
                && id in rows && rows == old(rows)[id := rows[id]] && result == Success((rows[id], true))
                && rows[id].intent == intent && rows[id].digest == c.digest && rows[id].command == Some(c)
                && rows[id].runner == c.runner && rows[id].host == c.host && rows[id].project == c.project
                && rows[id].state == Pending && rows[id].error.None? && rows[id].receipt.None? && !rows[id].orphan
                && rows[id].createdAt == rows[id].updatedAt == c.createdAt
                && rows[id].relayAt.None? && rows[id].runnerAt.None? && rows[id].macAt.None?
    {
      hide Replay;
      ReplayNext(map[], history, Prepared(id, intent, c));
      history := history + [Prepared(id, intent, c)];
      if id in rows {
        if rows[id].intent != intent {
          return Failure("desktop_request_conflict");
        }
        return Success((rows[id], false));
      }
      if exists k :: k in rows && rows[k].digest == c.digest {
        return Failure("integrity_error");
      }
      rows := rows[id := Row(intent, c.digest, c.runner, c.host, c.project, Pending, None, Some(c), None,
                             c.createdAt, c.createdAt, false, None, None, None)];
      result := Success((rows[id], true));
    }

    /** What a repeated request is answered with; None when the id is new. */
    method ReplayRequest(id: RequestId, intent: string) returns (result: Result<Option<Row>, string>)
      ensures result.Failure? <==> id in rows && rows[id].intent != intent
      ensures result.Failure? ==> result.error == "desktop_request_conflict"
      ensures result.Success? ==> result.value == if id in rows then Some(rows[id]) else None
    {
      if id !in rows {
        return Success(None);
      }
      if rows[id].intent != intent {
        return Failure("desktop_request_conflict");
      }
      result := Success(Some(rows[id]));
    }

    method Mark(id: RequestId, state: State, error: Option<string>, at: int) returns (result: Result<Row, string>)
      requires Valid()
      modifies this
      ensures Grew(old(history), old(rows), Marked(id, state, error, at))
      ensures id !in old(rows) ==> rows == old(rows) && result == Failure("desktop_command_unknown")
      ensures id in old(rows) ==>
                var row := old(rows)[id];
                var relayed := state == Submitted && row.relayAt.None?;
                && id in rows && rows == old(rows)[id := rows[id]] && result == Success(rows[id])
                && rows[id] == row.(state := if row.state == Pending then state else row.state,
                                    error := if row.state == Pending then error else row.error,
                                    updatedAt := if row.state == Pending then at else row.updatedAt,
                                    relayAt := if relayed then Some(at) else row.relayAt)
    {
      hide Replay;
      ReplayNext(map[], history, Marked(id, state, error, at));
      history := history + [Marked(id, state, error, at)];
      if id !in rows {
        return Failure("desktop_command_unknown");
      }
      var row := rows[id];
      if row.state.Pending? {
        row := row.(state := state, error := error, updatedAt := at);
        if state.Submitted? && row.relayAt.None? {
          row := row.(relayAt := Some(at));
        }
      } else if state.Submitted? && row.relayAt.None? {
        row := row.(relayAt := Some(at));
      }
      rows := rows[id := row];
      result := Success(row);
    }

    /** The receipt of another Runner, host, project or mode than the row is bound to. */
    predicate Foreign(row: Row, d: Receipt) {
      || row.runner != d.runner || row.host != d.host || row.project != d.project
      || (row.command.Some? && row.command.value.mode != d.mode)
    }

    method IngestReceipt(id: RequestId, d: Receipt) returns (result: Result<IngestStatus, string>)
      requires Valid()
      modifies this
      ensures Grew(old(history), old(rows), Ingested(id, d))
      ensures id !in old(rows) && DigestTaken(old(rows), d.digest) ==> rows == old(rows) && result == Failure("integrity_error")
      ensures id !in old(rows) && !DigestTaken(old(rows), d.digest) ==>
                && result == Success(Stored(true)) && id in rows && rows == old(rows)[id := rows[id]]
                && rows[id].orphan && rows[id].command.None? && rows[id].receipt == Some(d) && rows[id].digest == d.digest
                && rows[id].runner == d.runner && rows[id].host == d.host && rows[id].project == d.project
                && rows[id].state == RecoveryRequired && rows[id].error == Some("desktop_command_unknown")
                && rows[id].relayAt.None? && rows[id].runnerAt.None? && rows[id].macAt.None?
      ensures id in old(rows) && Foreign(old(rows)[id], d) ==>
                rows == old(rows) && result == Failure("desktop_receipt_binding_conflict")
      ensures id in old(rows) && !Foreign(old(rows)[id], d) && old(rows)[id].receipt == Some(d) ==>
                rows == old(rows) && result == Success(DuplicateReceipt)
      ensures id in old(rows) && !Foreign(old(rows)[id], d) && old(rows)[id].receipt.Some? && old(rows)[id].receipt != Some(d) ==>
                var previous := old(rows)[id].receipt.value;
                && (previous.state != Accepted && d.state == Accepted ==> rows == old(rows) && result == Success(StaleReceipt))
                && ((previous.state == Accepted <==> d.state == Accepted) ==>
                      rows == old(rows) && result == Failure("desktop_receipt_conflict"))
      ensures id in old(rows) && !Foreign(old(rows)[id], d)
              && (old(rows)[id].receipt.None?
                  || (old(rows)[id].receipt != Some(d) && old(rows)[id].receipt.value.state == Accepted && d.state != Accepted)) ==>
                var row := old(rows)[id];
                && result == Success(Stored(false)) && id in rows && rows == old(rows)[id := rows[id]]
                && rows[id] == row.(state := d.state, error := d.error, receipt := Some(d), updatedAt := d.createdAt,
                                    runnerAt := if d.state == Accepted && row.runnerAt.None? then Some(d.createdAt) else row.runnerAt,
                                    macAt := if d.state == Confirmed && row.macAt.None? then Some(d.createdAt) else row.macAt)
    {
      hide Replay;
      ReplayNext(map[], history, Ingested(id, d));
      history := history + [Ingested(id, d)];
      if id !in rows {
        if exists k :: k in rows && rows[k].digest == d.digest {
          return Failure("integrity_error");
        }
        rows := rows[id := OrphanRow(d)];
        return Success(Stored(true));
      }
      var row := rows[id];
      if row.runner != d.runner || row.host != d.host || row.project != d.project {
        return Failure("desktop_receipt_binding_conflict");
      }
      if row.command.Some? && row.command.value.mode != d.mode {
        return Failure("desktop_receipt_binding_conflict");
      }
      if row.receipt.Some? {
        if row.receipt.value == d {
          return Success(DuplicateReceipt);
        }
        var previous := row.receipt.value;
        if previous.state != Accepted && d.state == Accepted {
          return Success(StaleReceipt);
        }
        if previous.state != Accepted || d.state == Accepted {
          return Failure("desktop_receipt_conflict");
        }
      }
      row := row.(state := d.state, error := d.error, receipt := Some(d), updatedAt := d.createdAt);
      if d.state.Accepted? && row.runnerAt.None? {
        row := row.(runnerAt := Some(d.createdAt));
      }
      if d.state.Confirmed? && row.macAt.None? {
        row := row.(macAt := Some(d.createdAt));
      }
      rows := rows[id := row];
      result := Success(Stored(false));
    }

    /** The rows no receipt has reached in time. */
    method CollectOverdue(now: int) returns (expired: set<RequestId>)
      ensures expired == set id | id in rows && Overdue(rows[id], now)
    {
      var todo := rows.Keys;
      expired := {};
      while todo != {}
        invariant todo <= rows.Keys
        invariant expired == set id | id in rows && id !in todo && Overdue(rows[id], now)
        decreases todo
      {
        var id :| id in todo;
        var row := rows[id];
        if row.state.Submitted? || row.state.Accepted? {
          if row.command.None? || row.command.value.expiresAt.None? || row.command.value.expiresAt.value <= now {
            expired := expired + {id};
          }
        }
        todo := todo - {id};
      }
      assert expired == set id | id in rows && Overdue(rows[id], now);
    }

    /** Collects the overdue rows, then times them out; returns how many. */
    method Sweep(now: int) returns (count: nat)
      requires Valid()
      modifies this
      ensures Grew(old(history), old(rows), Swept(now)) && rows.Keys == old(rows).Keys
      ensures forall id :: id in rows ==>
                var row := old(rows)[id];
                rows[id] == if (row.state == Submitted || row.state == Accepted)
                               && (row.command.None? || row.command.value.expiresAt.None? || row.command.value.expiresAt.value <= now)
                            then row.(state := Unknown, error := Some("desktop_receipt_timeout"), updatedAt := now) else row
      ensures count == |set id | id in rows && rows[id] != old(rows)[id]|
    {
      hide Replay;
      ghost var before := rows;
      var expired := CollectOverdue(now);
      count := |expired|;
      ghost var overdue := expired;
      while expired != {}
        invariant expired <= overdue && rows.Keys == before.Keys && history == old(history)
        invariant forall id :: id in before ==>
                    rows[id] == if id in overdue && id !in expired then SweepRow(before[id], now) else before[id]
        decreases expired
      {
        var id :| id in expired;
        rows := rows[id := rows[id].(state := Unknown, error := Some("desktop_receipt_timeout"), updatedAt := now)];
        expired := expired - {id};
      }
      assert rows == CreateJournalModel.Sweep(before, now);
      SweepChangesOverdue(before, now);
      ReplayNext(map[], history, Swept(now));
      history := history + [Swept(now)];
    }
  }

  /** A sweep changes exactly the overdue rows. */
  lemma SweepChangesOverdue(rows: Rows, now: int)
    ensures var swept := CreateJournalModel.Sweep(rows, now);
            (set id | id in swept && swept[id] != rows[id]) == set id | id in rows && Overdue(rows[id], now)
  {
    forall id | id in rows ensures SweepRow(rows[id], now) != rows[id] <==> Overdue(rows[id], now) {
    }
  }

  /** What the relay answered when the command was handed to it. */
  datatype RelayAnswer = Delivered | Undelivered(code: string) | Indeterminate

  /** A receipt for the request, and then a sweep, that come in between, if any. */
  datatype Meanwhile = Meanwhile(receipt: Option<Receipt>, sweepAt: Option<int>)

  /** The calls of `create`, one at a time under the command lock.  Every call records the steps it
      takes, so that `CreatePublication` speaks of whatever the controller does. */
  class CreateController {
    const journal: CreateJournal
    const publisherReady: bool
    ghost var trace: seq<World>
    ghost var labels: seq<Label>

    ghost function Now(): World
      reads this
      requires |trace| > 0
    {
      trace[|trace| - 1]
    }

    ghost predicate Valid()
      reads this, journal
    {
      && journal.Valid()
      && |trace| > 0 && IsRun(trace, labels) && Now().rows == journal.rows
    }

    /** Valid, with this call here, having done nothing but extend the earlier history. */
    ghost predicate Reached(before: seq<World>, pc: Option<Pc>)
      reads this, journal
    {
      Valid() && before <= trace && Now().callers == if pc.Some? then map[ME := pc.value] else map[]
    }

    constructor (publisherReady: bool, at: int)
      ensures Reached([], None) && Now().published == [] && journal.rows == map[] && fresh(journal)
      ensures this.publisherReady == publisherReady
    {
      journal := new CreateJournal(at);
      this.publisherReady := publisherReady;
      trace, labels := [World(map[], map[], [])], [];
    }

    ghost method Took(w: World, l: Label)
      requires |trace| > 0 && IsRun(trace, labels) && Step(Now(), w, l)
      modifies this`trace, this`labels
      ensures |trace| > 0 && IsRun(trace, labels) && trace == old(trace) + [w]
    {
      trace := trace + [w];
      labels := labels + [l];
      assert forall i :: 0 <= i < |labels| ==> Step(trace[i], trace[i + 1], labels[i]);
    }

    /** The process starts again over the same table. */
    method Restart(at: int)
      requires Reached([], None)
      modifies this`trace, this`labels, journal
      ensures Reached(old(trace), None) && Now().published == old(Now()).published
    {
      hide IsRun;
      journal.Reopen(at);
      Took(Now().(rows := journal.rows, callers := map[]), LRestart(at));
    }

    /** Later rows of the table, while nothing was published. */
    ghost predicate Moved(before: World)
      reads this
    {
      && |trace| > 0 && Now() == before.(rows := Now().rows)
      && forall k :: k in before.rows ==> k in Now().rows && Continues(before.rows[k], Now().rows[k])
    }

    /** What reaches the journal while a create call is on its way. */
    method Interference(id: RequestId, meanwhile: Meanwhile)
      requires Valid()
      modifies this`trace, this`labels, journal
      ensures Valid() && old(trace) <= trace && Moved(old(Now()))
      ensures meanwhile.receipt.None? ==>
                && journal.rows.Keys == old(journal.rows).Keys
                && forall digest :: DigestTaken(journal.rows, digest) <==> DigestTaken(old(journal.rows), digest)
      ensures meanwhile == Meanwhile(None, None) ==> journal.rows == old(journal.rows)
    {
      hide IsRun, Apply, Step, Continues, DigestTaken;
      ghost var first := Now();
      SelfContinues(first.rows);
      if meanwhile.receipt.Some? {
        var _ := journal.IngestReceipt(id, meanwhile.receipt.value);
        Arrived(Ingested(id, meanwhile.receipt.value));
      }
      if meanwhile.sweepAt.Some? {
        SweepArrives(meanwhile.sweepAt.value, first);
      }
    }

    method SweepArrives(now: int, ghost first: World)
      requires Valid() && Moved(first)
      modifies this`trace, this`labels, journal
      ensures Valid() && old(trace) <= trace && Moved(first)
      ensures journal.rows.Keys == old(journal.rows).Keys
      ensures forall digest :: DigestTaken(journal.rows, digest) <==> DigestTaken(old(journal.rows), digest)
    {
      hide IsRun, Apply, Step, Continues;
      ghost var mid := Now();
      var _ := journal.Sweep(now);
      Arrived(Swept(now));
      forall k | k in first.rows ensures k in Now().rows && Continues(first.rows[k], Now().rows[k]) {
        ContinuesTransitive(first.rows[k], mid.rows[k], Now().rows[k]);
      }
    }

    lemma SelfContinues(rows: Rows)
      ensures forall k :: k in rows ==> Continues(rows[k], rows[k])
    {
    }

    /** Records an event that reached the journal from elsewhere. */
    ghost method Arrived(e: Event)
      requires |trace| > 0 && IsRun(trace, labels) && (e.Ingested? || e.Swept?)
      modifies this`trace, this`labels
      ensures |trace| > 0 && IsRun(trace, labels) && old(trace) <= trace
      ensures Now() == old(Now()).(rows := Apply(old(Now()).rows, e)) && Moved(old(Now()))
    {
      hide IsRun, Apply, Continues;
      ghost var w := Now();
      Took(w.(rows := Apply(w.rows, e)), LArrive(e));
      forall k | k in w.rows ensures k in Now().rows && Continues(w.rows[k], Now().rows[k]) {
        ApplyContinues(w.rows, e, k);
      }
    }

    /** One create request.  A known id is answered from the table.  Otherwise the command is handed
        to the relay once, by the call that inserted its row; if no receipt came first, it is so
        exactly when there is a relay and its digest is not taken. */
    method Create(id: RequestId, intent: string, c: Command, early: Meanwhile, late: Meanwhile, answer: RelayAnswer, at: int)
      returns (result: Result<Row, string>)
      requires Reached([], None)
      modifies this`trace, this`labels, journal
      ensures Reached(old(trace), None)
      ensures Now().published == old(Now()).published || Now().published == old(Now()).published + [id]
      ensures Now().published != old(Now()).published ==> publisherReady && id !in old(journal.rows) && id in journal.rows
      ensures id in old(journal.rows) ==>
                journal.rows == old(journal.rows)
                && result == if old(journal.rows)[id].intent == intent then Success(old(journal.rows)[id])
                             else Failure("desktop_request_conflict")
      ensures result.Success? ==> id in journal.rows && result.value == journal.rows[id]
      ensures id !in old(journal.rows) && early.receipt.None? ==>
                if DigestTaken(old(journal.rows), c.digest) then
                  Now().published == old(Now()).published && result == Failure("integrity_error")
                else if !publisherReady then
                  && Now().published == old(Now()).published && result.Success?
                  && result.value == FreshRow(intent, c).(state := Failed, error := Some("desktop_relay_unavailable"), updatedAt := at)
                else
                  Now().published == old(Now()).published + [id]
      ensures Now().published != old(Now()).published ==>
                && Handed(FreshRow(intent, c), journal.rows[id], answer, at)
                && (result.Failure? <==> answer.Undelivered?) && (answer.Undelivered? ==> result.error == answer.code)
      ensures Now().published != old(Now()).published && late == Meanwhile(None, None) ==>
                var row := FreshRow(intent, c).(updatedAt := at);
                journal.rows[id] == match answer
                  case Delivered => row.(state := Submitted, relayAt := Some(at))
                  case Undelivered(code) => row.(state := Failed, error := Some(code))
                  case Indeterminate => row.(state := Unknown, error := Some("relay_publish_indeterminate"))
    {
      hide IsRun, Step, Apply, Continues, Handed, DigestTaken;
      var replay := journal.ReplayRequest(id, intent);
      if replay.Failure? {
        return Failure(replay.error);
      }
      if replay.value.Some? {
        return Success(replay.value.value);
      }
      Begin(id, intent, c);
      // An orphan receipt for this very id may arrive first.
      Interference(id, early);
      var stored := Insert(id, intent, c);
      if stored.Failure? {
        return Failure(stored.error);
      }
      var (row, created) := stored.value;
      if !created {
        return Success(row);
      }
      if !publisherReady {
        result := Shelve(id, at);
      } else {
        result := HandOver(id, late, answer, at);
      }
    }

    /** A request whose id has no row yet. */
    method Begin(id: RequestId, intent: string, c: Command)
      requires Reached([], None) && id !in journal.rows
      modifies this`trace, this`labels
      ensures Reached(old(trace), Some(Checked(id, intent, c))) && Now().published == old(Now()).published
    {
      hide IsRun;
      Took(Now().(callers := map[ME := Checked(id, intent, c)]), LBegin(ME, id, intent, c));
    }

    /** Without a relay the command is marked as failed and goes nowhere. */
    method Shelve(id: RequestId, at: int) returns (result: Result<Row, string>)
      requires Reached([], Some(Owner(id))) && id in journal.rows
      modifies this`trace, this`labels, journal
      ensures Reached(old(trace), None) && Now().published == old(Now()).published
      ensures id in journal.rows && result == Success(journal.rows[id])
      ensures journal.rows[id] == MarkRow(old(journal.rows[id]), Failed, Some("desktop_relay_unavailable"), at)
    {
      hide IsRun;
      Took(Now().(callers := map[ME := Marking(id, Failed, Some("desktop_relay_unavailable"))]), LNoPublisher(ME));
      result := Conclude(id, Failed, Some("desktop_relay_unavailable"), at);
    }

    method Insert(id: RequestId, intent: string, c: Command) returns (stored: Result<(Row, bool), string>)
      requires Reached([], Some(Checked(id, intent, c)))
      modifies this`trace, this`labels, journal
      ensures Reached(old(trace), if stored.Success? && stored.value.1 then Some(Owner(id)) else None)
      ensures Now().published == old(Now()).published
      ensures stored.Success? ==> id in journal.rows && stored.value.0 == journal.rows[id]
      ensures stored.Success? && stored.value.1 <==> id !in old(journal.rows) && !DigestTaken(old(journal.rows), c.digest)
      ensures stored.Success? && stored.value.1 ==> journal.rows[id] == FreshRow(intent, c)
      ensures id !in old(journal.rows) && DigestTaken(old(journal.rows), c.digest) ==> stored == Failure("integrity_error")
    {
      hide IsRun, Step, DigestTaken;
      stored := journal.Prepare(id, intent, c);
      Prepared(id, intent, c);
    }

    /** Records the preparation: the call owns the row it inserted, or is over. */
    ghost method Prepared(id: RequestId, intent: string, c: Command)
      requires |trace| > 0 && IsRun(trace, labels) && Now().callers == map[ME := Checked(id, intent, c)]
      modifies this`trace, this`labels
      ensures |trace| > 0 && IsRun(trace, labels) && old(trace) <= trace
      ensures var rows := old(Now()).rows;
              var created := PrepareResult(rows, id, intent, c) == Success(true);
              Now() == old(Now()).(rows := CreateJournalModel.Prepare(rows, id, intent, c),
                                   callers := if created then map[ME := Owner(id)] else map[])
    {
      hide IsRun, DigestTaken;
      ghost var w := Now();
      if PrepareResult(w.rows, id, intent, c) == Success(true) {
        Took(w.(rows := CreateJournalModel.Prepare(w.rows, id, intent, c), callers := map[ME := Owner(id)]), LPrepare(ME));
      } else {
        Took(w.(callers := map[]), LPrepare(ME));
      }
    }

    /** How the relay's answer is marked. */
    function MarkOf(answer: RelayAnswer): (State, Option<string>) {
      match answer
      case Delivered => (Submitted, None)
      case Undelivered(code) => (Failed, Some(code))
      case Indeterminate => (Unknown, Some("relay_publish_indeterminate"))
    }

    /** Row `b` is some row that may follow `a`, marked with the relay's answer. */
    ghost predicate Handed(a: Row, b: Row, answer: RelayAnswer, at: int) {
      exists mid :: Continues(a, mid) && b == MarkRow(mid, MarkOf(answer).0, MarkOf(answer).1, at)
    }

    /** Hands a freshly prepared command to the relay and marks how that went. */
    method HandOver(id: RequestId, late: Meanwhile, answer: RelayAnswer, at: int) returns (result: Result<Row, string>)
      requires Reached([], Some(Owner(id))) && id in journal.rows
      modifies this`trace, this`labels, journal
      ensures Reached(old(trace), None) && id in journal.rows
      ensures Now().published == old(Now()).published + [id]
      ensures Handed(old(journal.rows[id]), journal.rows[id], answer, at)
      ensures late == Meanwhile(None, None) ==>
                journal.rows[id] == MarkRow(old(journal.rows[id]), MarkOf(answer).0, MarkOf(answer).1, at)
      ensures result == if answer.Undelivered? then Failure(answer.code) else Success(journal.rows[id])
    {
      hide IsRun, Apply, Continues;
      ghost var w, mark := Now(), MarkOf(answer);
      Took(w.(callers := map[ME := Marking(id, mark.0, mark.1)], published := w.published + [id]), LPublish(ME, mark.0, mark.1));
      // The receipt may overtake the local mark.
      Interference(id, late);
      match answer {
        case Delivered => result := Conclude(id, Submitted, None, at);
        case Undelivered(code) =>
          var _ := Conclude(id, Failed, Some(code), at);
          result := Failure(code);
        case Indeterminate => result := Conclude(id, Unknown, Some("relay_publish_indeterminate"), at);
      }
    }

    method Conclude(id: RequestId, state: State, error: Option<string>, at: int) returns (result: Result<Row, string>)
      requires Reached([], Some(Marking(id, state, error))) && id in journal.rows
      modifies this`trace, this`labels, journal
      ensures Reached(old(trace), None) && Now().published == old(Now()).published
      ensures id in journal.rows && result == Success(journal.rows[id])
      ensures journal.rows == old(journal.rows)[id := MarkRow(old(journal.rows)[id], state, error, at)]
    {
      hide IsRun;
      ghost var w := Now();
      result := journal.Mark(id, state, error, at);
      Took(w.(rows := journal.rows, callers := map[]), LMark(ME, at));
    }
  }
}
