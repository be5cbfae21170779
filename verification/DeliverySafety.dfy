/** What every run of the delivery machine guarantees, whatever crashes and
    redeliveries it contains. */
module DeliverySafety {
  import opened Wrappers
  import opened DeliveryMachine
  import Runs
  import opened Sets

  // ---------------------------------------------------------------- sending

  /** At most one successful send and one entry per scheduled attempt, for every message whose
      deliveries, however many and whatever else they say, all expire at one time. */
  lemma SentAtMostOnce(c: Config, run: seq<World>, i: nat, id: MessageId, expiry: int)
    requires IsRun(c, run) && OneExpiry(run, id, expiry) && i < |run|
    ensures Entries(run[i].log, id) <= 1 + |c.delays|
    ensures Successes(run[i].log, id) <= 1
    ensures id in run[i].rows && run[i].rows[id].verdict.status.Sent? ==>
              Successes(run[i].log, id) == 1 && Entries(run[i].log, id) == run[i].rows[id].verdict.attempts
  {
    RunKeepsSends(c, run, i, id, expiry);
  }

  /** A purge takes a message only once its deliveries have expired. */
  lemma PurgeTakesOnlyExpired(c: Config, run: seq<World>, i: nat, id: MessageId, expiry: int)
    requires IsRun(c, run) && OneExpiry(run, id, expiry) && i + 1 < |run|
    requires id in run[i].rows && id !in run[i + 1].rows
    ensures expiry <= run[i + 1].now
  {
    hide Entries, Successes;
    RunKeepsSends(c, run, i, id, expiry);
    assert Step(c, run[i], run[i + 1]);
  }

  /** The worker is not between reading a new message and leaving its send loop. */
  predicate NotSending(pc: Pc, id: MessageId) {
    pc.Idle? || pc.req.id != id || pc.Looking? || pc.Closing? || pc.Reporting?
  }

  /** A message whose `sending` was stored, or that was purged after that, and that no call is sending. */
  predicate Spent(w: World, id: MessageId, expiry: int) {
    && NotSending(w.pc, id)
    && (if id in w.rows then w.rows[id].verdict.status != Accepted else w.now >= expiry)
    && (w.pc.Looking? && w.pc.req.id == id && id !in w.rows ==> w.pc.at >= expiry)
  }

  /** The same while the row is there, which asks nothing of the payloads. */
  predicate SpentHere(w: World, id: MessageId) {
    NotSending(w.pc, id) && id in w.rows && w.rows[id].verdict.status != Accepted
  }

  lemma StepSendsOnlyWhileSending(c: Config, w: World, w': World, id: MessageId)
    requires Step(c, w, w') && NotSending(w.pc, id)
    ensures Entries(w'.log, id) == Entries(w.log, id) && Successes(w'.log, id) == Successes(w.log, id)
  {
    hide Entries, Successes, Triage;
    if EffectStep(w, w') {
      var e := w'.log[|w'.log| - 1];
      assert w'.log == w.log + [e];
      Logged(w.log, e, id);
    } else {
      assert w'.log == w.log;
    }
  }

  lemma StepKeepsSpentHere(c: Config, w: World, w': World, id: MessageId)
    requires Inv(c, w) && Step(c, w, w') && SpentHere(w, id) && id in w'.rows
    ensures SpentHere(w', id)
  {
    hide AllReceived;
    if Decide(w, w') {
    } else {
      hide Triage;
    }
  }

  lemma StepKeepsSpent(c: Config, w: World, w': World, id: MessageId, expiry: int)
    requires Inv(c, w) && SendInv(c, w, id, expiry) && Step(c, w, w') && Spent(w, id, expiry)
    requires Timely(w, id, expiry) && Timely(w', id, expiry)
    ensures Spent(w', id, expiry)
  {
    hide Entries, Successes, AllReceived;
    if Decide(w, w') {
    } else {
      hide Triage;
    }
  }

  /** Once a call that stored `sending` is over, however it ended, no later call sends the message,
      even after its row was purged. */
  lemma NoSendAfterTheCall(c: Config, run: seq<World>, i: nat, j: nat, id: MessageId, expiry: int)
    requires IsRun(c, run) && OneExpiry(run, id, expiry) && i <= j < |run|
    requires run[i].pc.Idle? && id in run[i].rows && run[i].rows[id].verdict.status != Accepted
    ensures Entries(run[j].log, id) == Entries(run[i].log, id)
    ensures Successes(run[j].log, id) == Successes(run[i].log, id)
  {
    hide Step, Inv, SendInv, Entries, Successes;
    var n, m := Entries(run[i].log, id), Successes(run[i].log, id);
    var p := (w: World) => Spent(w, id, expiry) && Entries(w.log, id) == n && Successes(w.log, id) == m;
    forall k | i <= k < j && p(run[k]) ensures p(run[k + 1]) {
      RunKeepsInv(c, run, k);
      RunKeepsSends(c, run, k, id, expiry);
      StepKeepsSpent(c, run[k], run[k + 1], id, expiry);
      StepSendsOnlyWhileSending(c, run[k], run[k + 1], id);
    }
    Runs.Stable(run, i, j, p);
  }

  /** As long as the row is retained that holds whatever payloads reuse the id. */
  lemma NoSendWhileRetained(c: Config, run: seq<World>, i: nat, j: nat, id: MessageId)
    requires IsRun(c, run) && i <= j < |run| && Retained(run, i, j, id)
    requires run[i].pc.Idle? && run[i].rows[id].verdict.status != Accepted
    ensures Entries(run[j].log, id) == Entries(run[i].log, id)
    ensures Successes(run[j].log, id) == Successes(run[i].log, id)
  {
    hide Step, Inv, Entries, Successes;
    var n, m := Entries(run[i].log, id), Successes(run[i].log, id);
    var p := (w: World) => SpentHere(w, id) && Entries(w.log, id) == n && Successes(w.log, id) == m;
    forall k | i <= k < j && p(run[k]) ensures p(run[k + 1]) {
      RunKeepsInv(c, run, k);
      StepKeepsSpentHere(c, run[k], run[k + 1], id);
      StepSendsOnlyWhileSending(c, run[k], run[k + 1], id);
    }
    Runs.Stable(run, i, j, p);
  }

  /** The send command is entered only when `sending` with this number of attempts is stored and was
      the last thing to be announced. */
  lemma SendingIsStoredFirst(c: Config, run: seq<World>, i: nat)
    requires IsRun(c, run) && i + 1 < |run| && EnterRunner(run[i], run[i + 1])
    ensures run[i + 1].log == run[i].log + [Entered(run[i].pc.req.id)] && run[i].pc.k >= 1
    ensures Holds(run[i], run[i].pc.req.id, Verdict(Sending, run[i].pc.k, None))
    ensures LastPublished(run[i], run[i].pc.req.id, Verdict(Sending, run[i].pc.k, None))
  {
    RunKeepsInv(c, run, i);
  }

  // ---------------------------------------------------------------- reporting

  /** Status is written before it is told: a publication about a valid request is what the row holds. */
  lemma PublicationsAreStored(c: Config, run: seq<World>, i: nat)
    requires IsRun(c, run) && i + 1 < |run|
    requires Announce(run[i], run[i + 1])
    ensures var e := run[i + 1].log[|run[i + 1].log| - 1];
            e.Published? && Holds(run[i + 1], e.id, e.verdict)
            && (run[i + 1].pc.Idle? ==> e.verdict.status.Final())
  {
    RunKeepsInv(c, run, i);
  }

  /** The row is in the table from `i` to `j`. */
  ghost predicate Retained(run: seq<World>, i: nat, j: nat, id: MessageId)
    requires i <= j < |run|
  {
    forall k :: i <= k <= j ==> id in run[k].rows
  }

  /** The call that chose this message's final verdict has stored it. */
  predicate Settled(w: World, id: MessageId) {
    && id in w.rows && w.rows[id].verdict.status.Final()
    && (w.pc.Closing? ==> w.pc.req.id != id)
  }

  lemma StepKeepsFinal(c: Config, w: World, w': World, id: MessageId)
    requires Inv(c, w) && Step(c, w, w')
    requires id in w.rows && id in w'.rows && w.rows[id].verdict.status.Final()
    ensures w'.rows[id].verdict.status == w.rows[id].verdict.status
    ensures Settled(w, id) ==> Settled(w', id) && w'.rows[id].verdict == w.rows[id].verdict
  {
    hide AllReceived;
    if Decide(w, w') {
    } else {
      FinalOutlivesTheRest(c, w, w', id);
    }
  }

  lemma FinalOutlivesTheRest(c: Config, w: World, w': World, id: MessageId)
    requires Inv(c, w) && Step(c, w, w') && !Decide(w, w')
    requires id in w.rows && id in w'.rows && w.rows[id].verdict.status.Final()
    ensures w'.rows[id].verdict.status == w.rows[id].verdict.status
    ensures Settled(w, id) ==> Settled(w', id) && w'.rows[id].verdict == w.rows[id].verdict
  {
    hide AllReceived, Triage;
  }

  /** While a row is retained its final status is never replaced, and once stored
      by the closing call neither are the attempts and the error code. */
  lemma FinalIsNeverReplaced(c: Config, run: seq<World>, i: nat, j: nat, id: MessageId)
    requires IsRun(c, run) && i <= j < |run| && Retained(run, i, j, id)
    requires run[i].rows[id].verdict.status.Final()
    ensures run[j].rows[id].verdict.status == run[i].rows[id].verdict.status
    ensures Settled(run[i], id) ==> Settled(run[j], id) && run[j].rows[id].verdict == run[i].rows[id].verdict
  {
    var v, settled := run[i].rows[id].verdict, Settled(run[i], id);
    var p := (w: World) => id in w.rows ==>
        && w.rows[id].verdict.status == v.status
        && (settled ==> Settled(w, id) && w.rows[id].verdict == v);
    forall k | i <= k < j && p(run[k]) ensures p(run[k + 1]) {
      RunKeepsInv(c, run, k);
      StepKeepsFinal(c, run[k], run[k + 1], id);
    }
    Runs.Stable(run, i, j, p);
  }

  /** Every call that ends by reporting a retained message publishes the same verdict. */
  lemma RedeliveryRepeatsTheVerdict(c: Config, run: seq<World>, i: nat, j: nat, id: MessageId)
    requires IsRun(c, run) && i < j < |run| - 1 && Retained(run, i, j, id)
    requires run[i].pc.Reporting? && run[i].pc.req.id == id && Announce(run[i], run[i + 1])
    requires run[j].pc.Reporting? && run[j].pc.req.id == id && Announce(run[j], run[j + 1])
    ensures run[j].pc.verdict == run[i].pc.verdict == run[j].rows[id].verdict
    ensures run[j].pc.verdict.status.Final()
  {
    RunKeepsInv(c, run, i);
    RunKeepsInv(c, run, j);
    FinalIsNeverReplaced(c, run, i, j, id);
  }

  // ---------------------------------------------------------------- rate limits

  function Limit(source: Option<string>): nat {
    if source.Some? then SOURCE_LIMIT else GLOBAL_LIMIT
  }

  /** The counted rows received in the closed minute that begins at `lo`. */
  function Minute(rows: Rows, lo: int, source: Option<string>): set<MessageId> {
    Window(rows, lo, Some(lo + RATE_WINDOW), source)
  }

  ghost predicate WindowsBounded(rows: Rows) {
    forall lo, source :: |Minute(rows, lo, source)| <= Limit(source)
  }

  ghost predicate DuplicatesApart(rows: Rows) {
    forall a, b :: a in rows && b in rows && a != b
                   && rows[a].verdict.status.Counted() && rows[b].verdict.status.Counted()
                   && rows[a].dedupeKey == rows[b].dedupeKey
                   ==> rows[a].receivedAt + DEDUPE_WINDOW < rows[b].receivedAt
                       || rows[b].receivedAt + DEDUPE_WINDOW < rows[a].receivedAt
  }

  /** No row of `rows'` is counted unless it already was, unchanged, in `rows`. */
  ghost predicate NothingRecounted(rows: Rows, rows': Rows) {
    forall id :: id in rows' && rows'[id].verdict.status.Counted() ==>
                   id in rows && rows[id].verdict.status.Counted()
                   && rows[id].receivedAt == rows'[id].receivedAt
                   && rows[id].source == rows'[id].source && rows[id].dedupeKey == rows'[id].dedupeKey
  }

  lemma ShrinkingKeepsLimits(rows: Rows, rows': Rows)
    requires WindowsBounded(rows) && DuplicatesApart(rows) && NothingRecounted(rows, rows')
    ensures WindowsBounded(rows') && DuplicatesApart(rows')
  {
    forall lo, source
      ensures |Minute(rows', lo, source)| <= Limit(source)
    {
      SubsetSize(Minute(rows', lo, source), Minute(rows, lo, source));
    }
  }

  /** An accepted row enters a minute only if that minute lies in what the limits counted. */
  lemma MinuteAfterAccepting(rows: Rows, req: Request, at: int, lo: int, source: Option<string>)
    requires req.id !in rows
    ensures var after := Minute(rows[req.id := NewRow(req, Accepted, at)], lo, source);
            if req.id in after
            then after <= Window(rows, at - RATE_WINDOW, None, source) + {req.id}
                 && (source.Some? ==> source.value == req.source)
            else after <= Minute(rows, lo, source)
  {
  }

  /** The limits refuse a message exactly when accepting it would break a window. */
  lemma RateLimitIsExact(rows: Rows, req: Request, at: int)
    requires WindowsBounded(rows) && AllReceived(rows, at) && req.id !in rows
    ensures WindowsBounded(rows[req.id := NewRow(req, Accepted, at)]) <==> !RateLimited(rows, req.source, at)
  {
    var rows' := rows[req.id := NewRow(req, Accepted, at)];
    if !RateLimited(rows, req.source, at) {
      AcceptingKeepsWindows(rows, req, at);
    } else {
      var source := if |Window(rows, at - RATE_WINDOW, None, Some(req.source))| >= SOURCE_LIMIT then Some(req.source) else None;
      var before := Window(rows, at - RATE_WINDOW, None, source);
      SubsetSize(before + {req.id}, Minute(rows', at - RATE_WINDOW, source));
      assert |before + {req.id}| == |before| + 1;
    }
  }

  /** The dedupe window refuses a message exactly when accepting it would put two counted rows of
      its key within the window. */
  lemma DedupeIsExact(rows: Rows, req: Request, at: int)
    requires DuplicatesApart(rows) && AllReceived(rows, at) && req.id !in rows
    ensures DuplicatesApart(rows[req.id := NewRow(req, Accepted, at)]) <==> !RecentDuplicate(rows, req.dedupeKey, at - DEDUPE_WINDOW)
  {
    var rows' := rows[req.id := NewRow(req, Accepted, at)];
    if RecentDuplicate(rows, req.dedupeKey, at - DEDUPE_WINDOW) {
      var id :| id in rows && rows[id].dedupeKey == req.dedupeKey && at - DEDUPE_WINDOW <= rows[id].receivedAt
                && rows[id].verdict.status.Counted();
      assert rows'[id] == rows[id] && rows'[req.id].receivedAt == at;
    } else {
      AcceptingKeepsApart(rows, req, at);
    }
  }

  lemma AcceptingKeepsWindows(rows: Rows, req: Request, at: int)
    requires WindowsBounded(rows) && req.id !in rows && !RateLimited(rows, req.source, at)
    ensures WindowsBounded(rows[req.id := NewRow(req, Accepted, at)])
  {
    var rows' := rows[req.id := NewRow(req, Accepted, at)];
    forall lo, source ensures |Minute(rows', lo, source)| <= Limit(source) {
      MinuteAfterAccepting(rows, req, at, lo, source);
      if req.id in Minute(rows', lo, source) {
        SubsetSize(Minute(rows', lo, source), Window(rows, at - RATE_WINDOW, None, source) + {req.id});
      } else {
        SubsetSize(Minute(rows', lo, source), Minute(rows, lo, source));
      }
    }
  }

  lemma AcceptingKeepsApart(rows: Rows, req: Request, at: int)
    requires DuplicatesApart(rows) && req.id !in rows
    requires !RecentDuplicate(rows, req.dedupeKey, at - DEDUPE_WINDOW)
    ensures DuplicatesApart(rows[req.id := NewRow(req, Accepted, at)])
  {
  }

  /** The effects and the clock leave the table alone; the other steps change one verdict, or
      purge, or refuse: only acceptance makes a counted row. */
  lemma RestRecountsNothing(c: Config, w: World, w': World)
    requires Inv(c, w) && Step(c, w, w') && !Decide(w, w')
    ensures NothingRecounted(w.rows, w'.rows)
  {
    hide AllReceived, Triage;
    if PersistSending(w, w') || Schedule(c, w, w') || Persist(w, w') {
      WriteRecountsNothing(c, w, w');
    } else {
      hide PcInv, PersistSending, Schedule, Persist;
      assert w'.rows == w.rows || Receive(w, w');
    }
  }

  lemma WriteRecountsNothing(c: Config, w: World, w': World)
    requires Inv(c, w) && (PersistSending(w, w') || Schedule(c, w, w') || Persist(w, w'))
    ensures NothingRecounted(w.rows, w'.rows)
  {
    hide AllReceived;
  }

  lemma DecideRecountsNothing(c: Config, w: World, w': World)
    requires Inv(c, w) && Decide(w, w') && !w'.pc.AnnouncingAccept?
    ensures NothingRecounted(w.rows, w'.rows)
  {
    hide AllReceived;
  }

  lemma StepKeepsLimits(c: Config, w: World, w': World)
    requires Inv(c, w) && Step(c, w, w') && WindowsBounded(w.rows) && DuplicatesApart(w.rows)
    ensures WindowsBounded(w'.rows) && DuplicatesApart(w'.rows)
  {
    hide Inv, WindowsBounded, DuplicatesApart, NothingRecounted;
    if !Decide(w, w') {
      RestRecountsNothing(c, w, w');
      ShrinkingKeepsLimits(w.rows, w'.rows);
    } else if w'.pc.AnnouncingAccept? {
      AcceptingKeepsWindows(w.rows, w.pc.req, w.pc.at);
      AcceptingKeepsApart(w.rows, w.pc.req, w.pc.at);
    } else {
      DecideRecountsNothing(c, w, w');
      ShrinkingKeepsLimits(w.rows, w'.rows);
    }
  }

  /** In every closed window of 60 s at most 3 counted rows per source and 10 in all, and
      counted rows with one dedupe key lie more than 1800 s apart. */
  lemma {:induction false} LimitsHold(c: Config, run: seq<World>, i: nat)
    requires IsRun(c, run) && i < |run|
    ensures WindowsBounded(run[i].rows) && DuplicatesApart(run[i].rows)
  {
    if i > 0 {
      LimitsHold(c, run, i - 1);
      RunKeepsInv(c, run, i - 1);
      StepKeepsLimits(c, run[i - 1], run[i]);
    } else {
      forall lo, source
        ensures |Minute(run[0].rows, lo, source)| <= Limit(source)
      {
        assert Minute(run[0].rows, lo, source) == {};
      }
    }
  }

  /** A new message that has not expired is accepted if and only if its row keeps every window
      and the dedupe distance: neither limit refuses more than it must. */
  lemma AcceptedIffAllowed(c: Config, run: seq<World>, i: nat)
    requires IsRun(c, run) && i + 1 < |run| && Decide(run[i], run[i + 1])
    requires run[i].pc.req.id !in run[i].rows && run[i].pc.at < run[i].pc.req.ExpiresAt()
    ensures var rows := run[i].rows[run[i].pc.req.id := NewRow(run[i].pc.req, Accepted, run[i].pc.at)];
            && (run[i + 1].pc.AnnouncingAccept? <==> WindowsBounded(rows) && DuplicatesApart(rows))
            && (run[i + 1].pc.AnnouncingAccept? ==> run[i + 1].rows == rows)
  {
    hide WindowsBounded, DuplicatesApart, RateLimited, RecentDuplicate, Step;
    RunKeepsInv(c, run, i);
    LimitsHold(c, run, i);
    RateLimitIsExact(run[i].rows, run[i].pc.req, run[i].pc.at);
    DedupeIsExact(run[i].rows, run[i].pc.req, run[i].pc.at);
  }

  // ---------------------------------------------------------------- what a delivery leads to

  /** A delivery is told a verdict, or its message is sent. */
  datatype Course = Told(verdict: Verdict) | ToSend

  /** A known message by the status it was left in, a new one by what its row would do to the limits. */
  ghost function CourseOf(rows: Rows, req: Request, at: int): Course {
    if req.id in rows then
      var v := rows[req.id].verdict;
      match v.status
      case Sent | Failed | Expired | Duplicate => Told(v)
      case Sending | Retrying =>
        Told(if at < req.ExpiresAt() then Verdict(Failed, v.attempts, Some("delivery_state_unknown"))
             else Verdict(Expired, v.attempts, Some("ttl_expired")))
      case Accepted =>
        if at < req.ExpiresAt() then ToSend else Told(Verdict(Expired, v.attempts, Some("ttl_expired")))
    else if at >= req.ExpiresAt() then Told(Verdict(Expired, 0, Some("ttl_expired")))
    else
      var accepted := rows[req.id := AcceptedRow(req, at)];
      if !DuplicatesApart(accepted) then Told(Verdict(Duplicate, 0, Some("dedupe_window")))
      else if !WindowsBounded(accepted) then Told(Verdict(Failed, 0, Some("rate_limited")))
      else ToSend
  }

  function AcceptedRow(req: Request, at: int): Row {
    Row(req.dedupeKey, req.source, at, req.createdAt + req.ttl * SECOND, Verdict(Accepted, 0, None), None)
  }

  /** The rows from which a message is sent: unchanged for a known one. */
  function Admitted(rows: Rows, req: Request, at: int): Rows {
    if req.id in rows then rows else rows[req.id := AcceptedRow(req, at)]
  }

  lemma TriageFollowsCourse(rows: Rows, req: Request, at: int)
    requires WindowsBounded(rows) && DuplicatesApart(rows) && AllReceived(rows, at)
    ensures match CourseOf(rows, req, at)
            case Told(v) => Triage(rows, req, at).1 == Reporting(req, v) || Triage(rows, req, at).1 == Closing(req, v)
            case ToSend =>
              && Triage(rows, req, at).0 == Admitted(rows, req, at)
              && Triage(rows, req, at).1 == if req.id in rows then Rested(req, 0) else AnnouncingAccept(req)
  {
    hide WindowsBounded, DuplicatesApart, RateLimited, RecentDuplicate, AllReceived;
    if req.id !in rows {
      RateLimitIsExact(rows, req, at);
      DedupeIsExact(rows, req, at);
    }
  }

  /** Over every run: a known message is told its final verdict, or that it expired, or that its
      delivery is unknown if it was left in the middle of sending; one left accepted in time goes on
      to be sent from the row as it is; a new one is accepted exactly if that keeps the limits. */
  lemma DecideFollowsCourse(c: Config, run: seq<World>, i: nat)
    requires IsRun(c, run) && i + 1 < |run| && Decide(run[i], run[i + 1])
    ensures var w, w', req := run[i], run[i + 1], run[i].pc.req;
            match CourseOf(w.rows, req, w.pc.at)
            case Told(v) => w'.pc == Reporting(req, v) || w'.pc == Closing(req, v)
            case ToSend =>
              && w'.rows == Admitted(w.rows, req, w.pc.at) && w'.log == w.log
              && w'.pc == if req.id in w.rows then Rested(req, 0) else AnnouncingAccept(req)
  {
    hide WindowsBounded, DuplicatesApart, CourseOf, Step;
    RunKeepsInv(c, run, i);
    LimitsHold(c, run, i);
    TriageFollowsCourse(run[i].rows, run[i].pc.req, run[i].pc.at);
  }

  /** A message that a call accepted and then, killed, did not begin to send is not lost: the next
      delivery in time goes on to send it. */
  lemma AcceptedMessageIsResumed(c: Config, run: seq<World>, i: nat)
    requires IsRun(c, run) && i + 1 < |run| && Decide(run[i], run[i + 1])
    requires run[i].pc.req.id in run[i].rows && run[i].rows[run[i].pc.req.id].verdict.status.Accepted?
    requires run[i].pc.at < run[i].pc.req.ExpiresAt()
    ensures run[i + 1] == run[i].(pc := Rested(run[i].pc.req, 0))
  {
    DecideFollowsCourse(c, run, i);
  }
}
