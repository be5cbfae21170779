/** The MQTT to Weixin delivery ledger as a small-step machine.

    A world holds what survives a crash (the ledger rows, the wall clock, and a
    history of side effects) and the point the worker has reached, which a crash
    discards.  One step is one database transaction, one publication or one
    boundary of the send command; a crash may replace any step.  Times are whole
    microseconds. */
module DeliveryMachine {
  import opened Wrappers

  type MessageId = string

  const SECOND := 1_000_000
  const SKEW := 300 * SECOND
  const MIN_TTL := 30
  const MAX_TTL := 86_400
  const DEDUPE_WINDOW := 1_800 * SECOND
  const RATE_WINDOW := 60 * SECOND
  const SOURCE_LIMIT := 3
  const GLOBAL_LIMIT := 10
  const RETENTION := 30 * 24 * 60 * 60 * SECOND

  datatype Status = Accepted | Sending | Retrying | Sent | Failed | Expired | Duplicate {
    predicate Final() {
      Sent? || Failed? || Expired? || Duplicate?
    }

    /** The statuses that rate limits and the dedupe window look at. */
    predicate Counted() {
      Accepted? || Sending? || Retrying? || Sent?
    }
  }

  datatype Request = Request(id: MessageId, createdAt: int, ttl: int, source: string, dedupeKey: string) {
    function ExpiresAt(): int {
      createdAt + ttl * SECOND
    }
  }

  /** What is stored about a message and what is published about it. */
  datatype Verdict = Verdict(status: Status, attempts: nat, error: Option<string>)

  datatype Row = Row(dedupeKey: string, source: string, receivedAt: int, expiresAt: int,
                     verdict: Verdict, finishedAt: Option<int>)

  type Rows = map<MessageId, Row>

  datatype Effect =
    | Entered(id: MessageId)
    | Succeeded(id: MessageId)
    | Published(id: MessageId, verdict: Verdict, ok: bool)

  /** `k` is the number of send commands entered so far in this call. */
  datatype Pc =
    | Idle
    | Looking(req: Request, at: int)
    | AnnouncingAccept(req: Request)
    | Rested(req: Request, k: nat)
    | AnnouncingSend(req: Request, k: nat)
    | Armed(req: Request, k: nat)
    | Running(req: Request, k: nat)
    | Backoff(req: Request, k: nat)
    | AnnouncingRetry(req: Request, k: nat)
    | Closing(req: Request, verdict: Verdict)
    | Reporting(req: Request, verdict: Verdict)

  datatype World = World(rows: Rows, now: int, pc: Pc, log: seq<Effect>)

  /** The retry schedule, in seconds. */
  datatype Config = Config(delays: seq<nat>)

  // ---------------------------------------------------------------- ledger

  function NewRow(req: Request, status: Status, at: int): Row {
    Row(req.dedupeKey, req.source, at, req.ExpiresAt(), Verdict(status, 0, None), None)
  }

  function SetVerdict(rows: Rows, id: MessageId, v: Verdict, finishedAt: Option<int>): Rows {
    if id in rows then rows[id := rows[id].(verdict := v, finishedAt := finishedAt)] else rows
  }

  function Purge(rows: Rows, before: int): Rows {
    map id | id in rows && rows[id].receivedAt >= before :: rows[id]
  }

  /** Counted rows received in `since..until`, of one source or of all. */
  function Window(rows: Rows, since: int, until: Option<int>, source: Option<string>): set<MessageId> {
    set id | id in rows
             && rows[id].verdict.status.Counted()
             && since <= rows[id].receivedAt
             && (until.Some? ==> rows[id].receivedAt <= until.value)
             && (source.Some? ==> rows[id].source == source.value)
  }

  predicate RecentDuplicate(rows: Rows, key: string, since: int) {
    exists id :: id in rows && rows[id].dedupeKey == key && since <= rows[id].receivedAt
                 && rows[id].verdict.status.Counted()
  }

  predicate RateLimited(rows: Rows, source: string, at: int) {
    || |Window(rows, at - RATE_WINDOW, None, Some(source))| >= SOURCE_LIMIT
    || |Window(rows, at - RATE_WINDOW, None, None)| >= GLOBAL_LIMIT
  }

  // ---------------------------------------------------------------- steps

  /** The decision taken once the expired rows are gone: the new rows and where the worker goes. */
  function Triage(rows: Rows, req: Request, at: int): (Rows, Pc) {
    if req.id in rows then
      var v := rows[req.id].verdict;
      (rows,
       if v.status.Final() then Reporting(req, v)
       else if at >= req.ExpiresAt() then Closing(req, Verdict(Expired, v.attempts, Some("ttl_expired")))
       else if v.status != Accepted then Closing(req, Verdict(Failed, v.attempts, Some("delivery_state_unknown")))
       else Rested(req, 0))
    else if at >= req.ExpiresAt() then
      (rows[req.id := NewRow(req, Expired, at)], Closing(req, Verdict(Expired, 0, Some("ttl_expired"))))
    else if RecentDuplicate(rows, req.dedupeKey, at - DEDUPE_WINDOW) then
      (rows[req.id := NewRow(req, Duplicate, at)], Closing(req, Verdict(Duplicate, 0, Some("dedupe_window"))))
    else if RateLimited(rows, req.source, at) then
      (rows[req.id := NewRow(req, Failed, at)], Closing(req, Verdict(Failed, 0, Some("rate_limited"))))
    else
      (rows[req.id := NewRow(req, Accepted, at)], AnnouncingAccept(req))
  }

  predicate Tick(w: World, w': World) {
    w' == w.(now := w'.now) && w.now <= w'.now
  }

  predicate Crash(w: World, w': World) {
    w' == w.(pc := Idle)
  }

  /** An invalid payload is answered without touching the ledger. */
  predicate Reject(w: World, w': World) {
    && w.pc.Idle? && |w'.log| > 0
    && var e := w'.log[|w'.log| - 1];
    && e.Published? && e.verdict.status.Failed? && e.verdict.attempts == 0
    && w' == w.(log := w.log + [e])
  }

  /** Any valid payload: the clock is read and rows past retention are removed. */
  predicate Receive(w: World, w': World) {
    && w.pc.Idle? && w'.pc.Looking?
    && var req, at := w'.pc.req, w'.pc.at;
    && MIN_TTL <= req.ttl <= MAX_TTL
    && w.now <= at
    && req.createdAt <= at + SKEW
    && w' == World(Purge(w.rows, at - RETENTION), at, Looking(req, at), w.log)
  }

  predicate Decide(w: World, w': World) {
    && w.pc.Looking?
    && var (rows', pc') := Triage(w.rows, w.pc.req, w.pc.at);
    w' == w.(rows := rows', pc := pc')
  }

  /** Publishes the stored state; the publication may fail. */
  predicate Announce(w: World, w': World) {
    && (w.pc.AnnouncingAccept? || w.pc.AnnouncingSend? || w.pc.AnnouncingRetry? || w.pc.Reporting?)
    && |w'.log| > 0
    && var e := w'.log[|w'.log| - 1];
    && e.Published?
    && e.id == w.pc.req.id
    && e.verdict == PcVerdict(w.pc)
    && w' == w.(log := w.log + [e], pc := AfterAnnounce(w.pc))
  }

  function PcVerdict(pc: Pc): Verdict
    requires pc.AnnouncingAccept? || pc.AnnouncingSend? || pc.AnnouncingRetry? || pc.Reporting?
  {
    match pc
    case AnnouncingAccept(_) => Verdict(Accepted, 0, None)
    case AnnouncingSend(_, k) => Verdict(Sending, k, None)
    case AnnouncingRetry(_, k) => Verdict(Retrying, k, Some("hermes_retry_scheduled"))
    case Reporting(_, v) => v
  }

  function AfterAnnounce(pc: Pc): Pc
    requires pc.AnnouncingAccept? || pc.AnnouncingSend? || pc.AnnouncingRetry? || pc.Reporting?
  {
    match pc
    case AnnouncingAccept(req) => Rested(req, 0)
    case AnnouncingSend(req, k) => Armed(req, k)
    case AnnouncingRetry(req, k) => Rested(req, k)
    case Reporting(_, _) => Idle
  }

  predicate PersistSending(w: World, w': World) {
    && w.pc.Rested?
    && var k := w.pc.k + 1;
    w' == w.(rows := SetVerdict(w.rows, w.pc.req.id, Verdict(Sending, k, None), None),
             pc := AnnouncingSend(w.pc.req, k))
  }

  predicate EnterRunner(w: World, w': World) {
    && w.pc.Armed?
    && w' == w.(log := w.log + [Entered(w.pc.req.id)], pc := Running(w.pc.req, w.pc.k))
  }

  predicate RunnerSucceeds(w: World, w': World) {
    && w.pc.Running?
    && w' == w.(log := w.log + [Succeeded(w.pc.req.id)],
                pc := Closing(w.pc.req, Verdict(Sent, w.pc.k, None)))
  }

  predicate RunnerFails(w: World, w': World) {
    && w.pc.Running?
    && (|| w' == w.(pc := Backoff(w.pc.req, w.pc.k))
        || w' == w.(pc := Closing(w.pc.req, Verdict(Failed, w.pc.k, Some("hermes_command_missing")))))
  }

  /** After a recoverable failure: give up, expire, or schedule the next attempt. */
  predicate Schedule(c: Config, w: World, w': World) {
    && w.pc.Backoff? && w.pc.k > 0
    && var req, k := w.pc.req, w.pc.k;
    if k > |c.delays| then
      w' == w.(pc := Closing(req, Verdict(Failed, k, Some("retry_exhausted"))))
    else if c.delays[k - 1] == 0 then
      w' == w.(pc := Rested(req, k))
    else if w.now + c.delays[k - 1] * SECOND >= req.ExpiresAt() then
      w' == w.(pc := Closing(req, Verdict(Expired, k, Some("ttl_expired"))))
    else
      w' == w.(rows := SetVerdict(w.rows, req.id, Verdict(Retrying, k, Some("hermes_retry_scheduled")), None),
               pc := AnnouncingRetry(req, k))
  }

  predicate Persist(w: World, w': World) {
    && w.pc.Closing?
    && w' == w.(rows := SetVerdict(w.rows, w.pc.req.id, w.pc.verdict, Some(w.now)),
                pc := Reporting(w.pc.req, w.pc.verdict))
  }

  predicate Step(c: Config, w: World, w': World) {
    || Tick(w, w')
    || Crash(w, w')
    || Reject(w, w')
    || Receive(w, w')
    || Decide(w, w')
    || Announce(w, w')
    || PersistSending(w, w')
    || EnterRunner(w, w')
    || RunnerSucceeds(w, w')
    || RunnerFails(w, w')
    || Schedule(c, w, w')
    || Persist(w, w')
  }

  predicate Init(w: World) {
    w.rows == map[] && w.pc.Idle? && w.log == []
  }

  ghost predicate IsRun(c: Config, run: seq<World>) {
    && |run| > 0
    && Init(run[0])
    && forall i :: 0 <= i < |run| - 1 ==> Step(c, run[i], run[i + 1])
  }

  // ---------------------------------------------------------------- rows and worker

  predicate Holds(w: World, id: MessageId, v: Verdict) {
    id in w.rows && w.rows[id].verdict == v
  }

  predicate LastPublished(w: World, id: MessageId, v: Verdict) {
    |w.log| > 0 && w.log[|w.log| - 1].Published? && w.log[|w.log| - 1].id == id && w.log[|w.log| - 1].verdict == v
  }

  /** The row says what the point the worker has reached lets one expect. */
  ghost predicate PcInv(c: Config, w: World) {
    match w.pc
    case Idle => true
    case Looking(req, at) => at <= w.now && req.createdAt <= at + SKEW && req.ttl <= MAX_TTL && AllReceived(w.rows, at)
    case AnnouncingAccept(req) => Holds(w, req.id, PcVerdict(w.pc))
    case Rested(req, k) =>
      && req.id in w.rows && k <= |c.delays|
      && var s := w.rows[req.id].verdict.status;
      if k == 0 then s.Accepted? else s.Sending? || s.Retrying?
    case AnnouncingSend(req, k) => Holds(w, req.id, PcVerdict(w.pc)) && 1 <= k <= 1 + |c.delays|
    case Armed(req, k) =>
      && Holds(w, req.id, Verdict(Sending, k, None)) && 1 <= k <= 1 + |c.delays|
      && LastPublished(w, req.id, Verdict(Sending, k, None))
    case Running(req, k) => Holds(w, req.id, Verdict(Sending, k, None)) && 1 <= k <= 1 + |c.delays|
    case Backoff(req, k) => Holds(w, req.id, Verdict(Sending, k, None)) && 1 <= k <= 1 + |c.delays|
    case AnnouncingRetry(req, k) => Holds(w, req.id, PcVerdict(w.pc)) && 1 <= k <= |c.delays|
    case Closing(req, v) =>
      && req.id in w.rows && v.status.Final()
      && (w.rows[req.id].verdict.status.Final() ==> v.status == w.rows[req.id].verdict.status && v.status != Sent)
    case Reporting(req, v) => Holds(w, req.id, v) && v.status.Final()
  }

  ghost predicate AllReceived(rows: Rows, now: int) {
    forall id :: id in rows ==> rows[id].receivedAt <= now
  }

  ghost predicate Inv(c: Config, w: World) {
    PcInv(c, w) && AllReceived(w.rows, w.now)
  }

  lemma DecideKeepsInv(c: Config, w: World, w': World)
    requires Inv(c, w) && Decide(w, w')
    ensures Inv(c, w')
  {
  }

  lemma WriteKeepsInv(c: Config, w: World, w': World)
    requires Inv(c, w) && (PersistSending(w, w') || Schedule(c, w, w') || Persist(w, w'))
    ensures Inv(c, w')
  {
  }

  lemma QuietKeepsInv(c: Config, w: World, w': World)
    requires Inv(c, w) && Step(c, w, w')
    requires !Decide(w, w') && !PersistSending(w, w') && !Schedule(c, w, w') && !Persist(w, w')
    ensures Inv(c, w')
  {
    hide Triage, Schedule, Persist, PersistSending;
  }

  lemma StepKeepsInv(c: Config, w: World, w': World)
    requires Inv(c, w) && Step(c, w, w')
    ensures Inv(c, w')
  {
    hide Triage, AllReceived;
    if Decide(w, w') {
      DecideKeepsInv(c, w, w');
    } else if PersistSending(w, w') || Schedule(c, w, w') || Persist(w, w') {
      WriteKeepsInv(c, w, w');
    } else {
      QuietKeepsInv(c, w, w');
    }
  }

  /** In every reachable state, whatever payloads were delivered, the table and the worker agree. */
  lemma {:induction false} RunKeepsInv(c: Config, run: seq<World>, i: nat)
    requires IsRun(c, run) && i < |run|
    ensures Inv(c, run[i])
  {
    if i == 0 {
    } else {
      hide Inv, Step;
      RunKeepsInv(c, run, i - 1);
      StepKeepsInv(c, run[i - 1], run[i]);
    }
  }

  // ---------------------------------------------------------------- what was sent

  /** How often the send command was entered for a message. */
  function Entries(log: seq<Effect>, id: MessageId): nat {
    multiset(log)[Entered(id)]
  }

  function Successes(log: seq<Effect>, id: MessageId): nat {
    multiset(log)[Succeeded(id)]
  }

  lemma Logged(log: seq<Effect>, e: Effect, id: MessageId)
    ensures Entries(log + [e], id) == Entries(log, id) + if e == Entered(id) then 1 else 0
    ensures Successes(log + [e], id) == Successes(log, id) + if e == Succeeded(id) then 1 else 0
  {
  }

  /** All deliveries of this message expire at one time, as copies of one payload do. */
  ghost predicate OneExpiry(run: seq<World>, id: MessageId, expiry: int) {
    forall k :: 0 <= k < |run| ==> Timely(run[k], id, expiry)
  }

  predicate Timely(w: World, id: MessageId, expiry: int) {
    w.pc.Looking? && w.pc.req.id == id ==> w.pc.req.ExpiresAt() == expiry
  }

  /** What the call that works on a message has sent so far. */
  predicate PcCounts(w: World, expiry: int)
    requires !w.pc.Idle?
  {
    var entries, successes := Entries(w.log, w.pc.req.id), Successes(w.log, w.pc.req.id);
    match w.pc
    case Looking(req, at) => entries > 0 && req.id !in w.rows ==> at >= expiry
    case AnnouncingAccept(_) => entries == 0
    case AnnouncingSend(_, k) => entries == k - 1 && successes == 0
    case Armed(_, k) => entries == k - 1 && successes == 0
    case Closing(_, v) => v.status.Sent? ==> successes == 1 && entries == v.attempts
    case Reporting(_, _) => true
    case _ => entries == w.pc.k && successes == 0
  }

  predicate SendInv(c: Config, w: World, id: MessageId, expiry: int) {
    && (id in w.rows ==> w.rows[id].expiresAt == expiry <= w.rows[id].receivedAt + SKEW + MAX_TTL * SECOND)
    && Entries(w.log, id) <= 1 + |c.delays|
    && Successes(w.log, id) <= 1
    && (Successes(w.log, id) > 0 ==> Entries(w.log, id) > 0)
       // Once entered, the message can never look new again: it is purged only when it has expired.
    && (Entries(w.log, id) > 0 ==>
          if id in w.rows then w.rows[id].verdict.status != Accepted else w.now >= expiry)
    && (id in w.rows && w.rows[id].verdict.status.Sent? ==>
          Successes(w.log, id) == 1 && Entries(w.log, id) == w.rows[id].verdict.attempts)
    && (!w.pc.Idle? && w.pc.req.id == id ==> PcCounts(w, expiry))
  }

  /** Steps that leave the rows alone but may log an effect. */
  predicate EffectStep(w: World, w': World) {
    Reject(w, w') || Announce(w, w') || EnterRunner(w, w') || RunnerSucceeds(w, w')
  }

  lemma EffectKeepsSends(c: Config, w: World, w': World, id: MessageId, expiry: int)
    requires Inv(c, w) && SendInv(c, w, id, expiry) && EffectStep(w, w')
    ensures SendInv(c, w', id, expiry)
  {
    hide Entries, Successes, AllReceived;
    var e := w'.log[|w'.log| - 1];
    assert w'.log == w.log + [e];
    Logged(w.log, e, id);
  }

  lemma WriteKeepsSends(c: Config, w: World, w': World, id: MessageId, expiry: int)
    requires Inv(c, w) && SendInv(c, w, id, expiry) && Timely(w, id, expiry)
    requires Decide(w, w') || PersistSending(w, w') || Schedule(c, w, w') || Persist(w, w')
    ensures SendInv(c, w', id, expiry)
  {
    hide Entries, Successes, AllReceived;
  }

  lemma QuietKeepsSends(c: Config, w: World, w': World, id: MessageId, expiry: int)
    requires Inv(c, w) && SendInv(c, w, id, expiry) && Timely(w', id, expiry)
    requires Receive(w, w') || Tick(w, w') || Crash(w, w') || RunnerFails(w, w')
    ensures SendInv(c, w', id, expiry)
  {
    hide Entries, Successes, AllReceived;
  }

  lemma StepKeepsSends(c: Config, w: World, w': World, id: MessageId, expiry: int)
    requires Inv(c, w) && SendInv(c, w, id, expiry) && Step(c, w, w') && Timely(w, id, expiry) && Timely(w', id, expiry)
    ensures SendInv(c, w', id, expiry)
  {
    hide Inv, SendInv;
    if EffectStep(w, w') {
      EffectKeepsSends(c, w, w', id, expiry);
    } else if Receive(w, w') || Tick(w, w') || Crash(w, w') || RunnerFails(w, w') {
      QuietKeepsSends(c, w, w', id, expiry);
    } else {
      WriteKeepsSends(c, w, w', id, expiry);
    }
  }

  lemma {:induction false} RunKeepsSends(c: Config, run: seq<World>, i: nat, id: MessageId, expiry: int)
    requires IsRun(c, run) && OneExpiry(run, id, expiry) && i < |run|
    ensures SendInv(c, run[i], id, expiry)
  {
    if i == 0 {
    } else {
      hide SendInv, Step;
      RunKeepsSends(c, run, i - 1, id, expiry);
      RunKeepsInv(c, run, i - 1);
      StepKeepsSends(c, run[i - 1], run[i], id, expiry);
    }
  }
}
