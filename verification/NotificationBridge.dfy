/** The notification bridge as the program runs it: a ledger updated in place and a
    processor that loops over the retry schedule.  Every method records the machine
    steps it takes, so all of `DeliverySafety` applies to what the processor does. */
module NotificationBridge {
  import opened Wrappers
  import opened DeliveryMachine
  import opened DeliverySafety

  // ---------------------------------------------------------------- parsing

  datatype CreatedAt = NotText | Malformed | Naive | At(time: int)

  /** A decoded payload, with the pattern and text checks already evaluated. */
  datatype Payload = Payload(isObject: bool, versionOne: bool, messageId: MessageId, idMatches: bool,
                             createdAt: CreatedAt, ttl: Option<int>, levelKnown: bool,
                             textsValid: bool, source: string, dedupeKey: string, audienceAllowed: bool)

  datatype ParseError = ParseError(code: string, messageId: MessageId)

  function Parse(p: Payload, now: int): (r: Result<Request, ParseError>)
    ensures r.Success? <==>
              && p.isObject && p.versionOne && p.idMatches && p.createdAt.At? && p.createdAt.time <= now + SKEW
              && p.ttl.Some? && MIN_TTL <= p.ttl.value <= MAX_TTL && p.levelKnown && p.textsValid && p.audienceAllowed
    ensures r.Success? ==> r.value == Request(p.messageId, p.createdAt.time, p.ttl.value, p.source, p.dedupeKey)
    ensures r.Success? ==> r.value.createdAt <= now + SKEW && MIN_TTL <= r.value.ttl <= MAX_TTL
    ensures r.Success? ==> r.value.ExpiresAt() <= now + SKEW + MAX_TTL * SECOND < now + RETENTION
    ensures r.Failure? && r.error.code == "created_at_in_future" ==>
              p.createdAt.At? && p.createdAt.time > now + SKEW
  {
    if !p.isObject then Failure(ParseError("invalid_payload", ""))
    else if !p.versionOne then Failure(ParseError("unsupported_version", p.messageId))
    else if !p.idMatches then Failure(ParseError("invalid_message_id", ""))
    else if !p.createdAt.At? then Failure(ParseError("invalid_created_at", p.messageId))
    else if p.createdAt.time > now + SKEW then Failure(ParseError("created_at_in_future", p.messageId))
    else if p.ttl.None? || !(MIN_TTL <= p.ttl.value <= MAX_TTL) then Failure(ParseError("invalid_ttl", p.messageId))
    else if !p.levelKnown then Failure(ParseError("invalid_level", p.messageId))
    else if !p.textsValid then Failure(ParseError("invalid_payload", p.messageId))
    else if !p.audienceAllowed then Failure(ParseError("audience_not_allowed", p.messageId))
    else Success(AsRequest(p))
  }

  function AsRequest(p: Payload): Request
    requires p.createdAt.At? && p.ttl.Some?
  {
    Request(p.messageId, p.createdAt.time, p.ttl.value, p.source, p.dedupeKey)
  }

  datatype Delivery = Undecodable | Decoded(payload: Payload)

  // ---------------------------------------------------------------- ledger

  class Ledger {
    var rows: Rows

    constructor ()
      ensures rows == map[]
    {
      rows := map[];
    }

    method Get(id: MessageId) returns (row: Option<Row>)
      ensures row == if id in rows then Some(rows[id]) else None
    {
      row := if id in rows then Some(rows[id]) else None;
    }

    /** False, and no change, when the id is already present. */
    method Insert(req: Request, status: Status, at: int) returns (inserted: bool)
      modifies this
      ensures inserted <==> req.id !in old(rows)
      ensures rows == if inserted then old(rows)[req.id := NewRow(req, status, at)] else old(rows)
    {
      inserted := req.id !in rows;
      if inserted {
        rows := rows[req.id := NewRow(req, status, at)];
      }
    }

    method Update(id: MessageId, v: Verdict, finishedAt: Option<int>)
      modifies this
      ensures rows == SetVerdict(old(rows), id, v, finishedAt)
    {
      if id in rows {
        rows := rows[id := rows[id].(verdict := v, finishedAt := finishedAt)];
      }
    }

    method HasRecentDedupe(key: string, since: int) returns (found: bool)
      ensures found <==> RecentDuplicate(rows, key, since)
    {
      found := exists id :: id in rows && rows[id].dedupeKey == key && since <= rows[id].receivedAt
                            && rows[id].verdict.status.Counted();
    }

    method CountRecent(since: int, source: Option<string>) returns (count: nat)
      ensures count == |Window(rows, since, None, source)|
    {
      count := |Window(rows, since, None, source)|;
    }

    method Cleanup(before: int)
      modifies this
      ensures rows == Purge(old(rows), before)
      ensures forall id :: id in rows <==> id in old(rows) && old(rows)[id].receivedAt >= before
    {
      rows := map id | id in rows && rows[id].receivedAt >= before :: rows[id];
    }
  }

  // ---------------------------------------------------------------- processor

  datatype RunnerOutcome = Exit(code: int) | CommandMissing | TimedOut | OsError {
    predicate Delivers() {
      this == Exit(0)
    }

    predicate Recoverable() {
      !Delivers() && !CommandMissing?
    }
  }

  /** `Abandoned` is a crash or an unexpected exception: the delivery is not acknowledged. */
  datatype Outcome = Acknowledge | Withhold | Abandoned

  /** How the attempts from the k-th to the last end, when none comes too late. */
  function Conclusion(outcomes: nat -> RunnerOutcome, k: nat, last: nat): Verdict
    requires k <= last
    decreases last - k
  {
    if outcomes(k).Delivers() then Verdict(Sent, k, None)
    else if outcomes(k).CommandMissing? then Verdict(Failed, k, Some("hermes_command_missing"))
    else if k == last then Verdict(Failed, last, Some("retry_exhausted"))
    else Conclusion(outcomes, k + 1, last)
  }

  /** The send loop, over by `until`, ended in this verdict: as the outcomes say, or expired
      before a retry that the conclusion would have needed. */
  predicate Concluded(delays: seq<nat>, req: Request, outcomes: nat -> RunnerOutcome, until: int, v: Verdict) {
    var sure := Conclusion(outcomes, 1, 1 + |delays|);
    || v == sure
    || (&& v == Verdict(Expired, v.attempts, Some("ttl_expired"))
        && 1 <= v.attempts <= |delays| && v.attempts < sure.attempts
        && delays[v.attempts - 1] > 0
        && until + delays[v.attempts - 1] * SECOND >= req.ExpiresAt())
  }

  lemma {:induction false} ConclusionComes(outcomes: nat -> RunnerOutcome, j: nat, k: nat, last: nat)
    requires j <= k <= last && (forall i :: j <= i < k ==> outcomes(i).Recoverable())
    ensures Conclusion(outcomes, j, last) == Conclusion(outcomes, k, last)
    decreases k - j
  {
    if j == k {
    } else {
      ConclusionComes(outcomes, j + 1, k, last);
    }
  }

  lemma {:induction false} ConclusionIsLater(outcomes: nat -> RunnerOutcome, k: nat, last: nat)
    requires k <= last
    ensures k <= Conclusion(outcomes, k, last).attempts <= last
    decreases last - k
  {
    if k == last {
    } else {
      ConclusionIsLater(outcomes, k + 1, last);
    }
  }

  lemma ExpiryConcludes(delays: seq<nat>, req: Request, outcomes: nat -> RunnerOutcome, until: int, k: nat)
    requires 1 <= k <= |delays| && (forall i :: 1 <= i <= k ==> outcomes(i).Recoverable())
    requires delays[k - 1] > 0 && until + delays[k - 1] * SECOND >= req.ExpiresAt()
    ensures Concluded(delays, req, outcomes, until, Verdict(Expired, k, Some("ttl_expired")))
  {
    ConclusionComes(outcomes, 1, k + 1, 1 + |delays|);
    ConclusionIsLater(outcomes, k + 1, 1 + |delays|);
  }

  lemma AttemptConcludes(delays: seq<nat>, req: Request, outcomes: nat -> RunnerOutcome, until: int, k: nat)
    requires 1 <= k <= 1 + |delays| && (forall i :: 1 <= i < k ==> outcomes(i).Recoverable()) && !outcomes(k).Recoverable()
    ensures Concluded(delays, req, outcomes, until,
                      if outcomes(k).Delivers() then Verdict(Sent, k, None)
                      else Verdict(Failed, k, Some("hermes_command_missing")))
  {
    ConclusionComes(outcomes, 1, k, 1 + |delays|);
  }

  lemma ExhaustionConcludes(delays: seq<nat>, req: Request, outcomes: nat -> RunnerOutcome, until: int)
    requires forall i :: 1 <= i <= 1 + |delays| ==> outcomes(i).Recoverable()
    ensures Concluded(delays, req, outcomes, until, Verdict(Failed, 1 + |delays|, Some("retry_exhausted")))
  {
    ConclusionComes(outcomes, 1, 1 + |delays|, 1 + |delays|);
  }

  /** Take the first attempt k not worth retrying, or the last one, while no retry would come too
      late.  The message is said to be sent, with k attempts, exactly if that attempt succeeded; it
      failed for good if the command was missing, and by exhaustion otherwise. */
  lemma FirstSuccessIsSent(delays: seq<nat>, req: Request, outcomes: nat -> RunnerOutcome, until: int, v: Verdict, k: nat)
    requires Concluded(delays, req, outcomes, until, v)
    requires 1 <= k <= 1 + |delays| && (forall i :: 1 <= i < k ==> outcomes(i) != Exit(0) && outcomes(i) != CommandMissing)
    requires forall i :: 0 <= i < k - 1 ==> delays[i] > 0 ==> until + delays[i] * SECOND < req.ExpiresAt()
    ensures v.status.Sent? && v.attempts == k <==> outcomes(k) == Exit(0)
    ensures outcomes(k) == Exit(0) ==> v == Verdict(Sent, k, None)
    ensures outcomes(k) == CommandMissing ==> v == Verdict(Failed, k, Some("hermes_command_missing"))
    ensures k == 1 + |delays| && outcomes(k) != Exit(0) && outcomes(k) != CommandMissing ==>
              v == Verdict(Failed, k, Some("retry_exhausted"))
  {
    var last := 1 + |delays|;
    ConclusionComes(outcomes, 1, k, last);
    ConclusionIsLater(outcomes, k, last);
    if !outcomes(k).Delivers() && !outcomes(k).CommandMissing? && k < last {
      ConclusionIsLater(outcomes, k + 1, last);
    }
  }

  /** One worker.  Of each call one is told whether the process may be killed during it, and how
      the attempts to send would end; publications and the clock do as they like. */
  class NotificationProcessor {
    const ledger: Ledger
    const delays: seq<nat>
    var clock: int
    ghost var trace: seq<World>

    ghost function Config(): Config {
      DeliveryMachine.Config(delays)
    }

    ghost function Now(): World
      reads this
      requires |trace| > 0
    {
      trace[|trace| - 1]
    }

    ghost predicate Valid()
      reads this, ledger
    {
      |trace| > 0 && IsRun(Config(), trace) && Now().rows == ledger.rows && Now().now == clock
    }

    /** Valid, at this point of the call, having done nothing but extend the earlier history. */
    ghost predicate Reached(before: seq<World>, pc: Pc)
      reads this, ledger
    {
      Valid() && Now().pc == pc && before <= trace
    }

    constructor (delays: seq<nat>, clock: int)
      ensures Valid() && Now().pc.Idle? && fresh(ledger) && this.delays == delays && this.clock == clock
    {
      ledger := new Ledger();
      this.delays := delays;
      this.clock := clock;
      trace := [World(map[], clock, Idle, [])];
    }

    ghost method Took(w: World)
      requires |trace| > 0 && IsRun(Config(), trace) && Step(Config(), Now(), w)
      modifies this`trace
      ensures trace == old(trace) + [w] && IsRun(Config(), trace) && Now() == w
    {
      trace := trace + [w];
    }

    /** Reads a clock that never goes back. */
    method Clock() returns (t: int)
      requires Valid()
      modifies this`clock, this`trace
      ensures Valid() && old(trace) <= trace && t == clock
      ensures Now() == old(Now()).(now := t) && old(clock) <= t
    {
      hide IsRun;
      t := *;
      if t < clock {
        t := clock;
      }
      clock := t;
      Took(Now().(now := t));
    }

    /** The process may be killed here; the worker then stands idle over the same ledger. */
    method Killed(mortal: bool) returns (killed: bool)
      requires Valid()
      modifies this`trace
      ensures Valid() && old(trace) <= trace
      ensures Now() == if killed then old(Now()).(pc := Idle) else old(Now())
      ensures killed ==> mortal
    {
      hide IsRun;
      killed := *;
      if !mortal {
        killed := false;
      }
      if killed {
        Took(Now().(pc := Idle));
      }
    }

    /** Publishes what the ledger already holds and moves past the announcement. */
    method Publish(ghost req: Request, v: Verdict) returns (ok: bool)
      requires Valid()
      requires Now().pc.AnnouncingAccept? || Now().pc.AnnouncingSend? || Now().pc.AnnouncingRetry? || Now().pc.Reporting?
      requires Now().pc.req == req && PcVerdict(Now().pc) == v
      modifies this`trace
      ensures Valid() && old(trace) <= trace
      ensures Now() == old(Now()).(log := old(Now()).log + [Published(req.id, v, ok)], pc := AfterAnnounce(old(Now()).pc))
    {
      hide IsRun;
      ok := *;
      Took(Now().(log := Now().log + [Published(req.id, v, ok)], pc := AfterAnnounce(Now().pc)));
    }

    method PublishInvalid(id: MessageId, code: string) returns (ok: bool)
      requires Valid() && Now().pc.Idle?
      modifies this`trace
      ensures Valid() && old(trace) <= trace
      ensures Now() == old(Now()).(log := old(Now()).log + [Published(id, Verdict(Failed, 0, Some(code)), ok)])
    {
      hide IsRun;
      ok := *;
      Took(Now().(log := Now().log + [Published(id, Verdict(Failed, 0, Some(code)), ok)]));
    }

    /** Enters the send command and classifies how it ended: (sent, error code, worth retrying). */
    method SendOnce(req: Request, ghost k: nat, outcome: RunnerOutcome) returns (ok: bool, code: string, recoverable: bool)
      requires Valid() && Now().pc == Armed(req, k)
      modifies this`trace
      ensures Valid() && old(trace) <= trace && Now().rows == old(Now()).rows
      ensures ok == outcome.Delivers() && recoverable == outcome.Recoverable()
      ensures ok <==> outcome == Exit(0)
      ensures recoverable <==> outcome.TimedOut? || outcome.OsError? || (outcome.Exit? && outcome.code != 0)
      ensures Now().pc == if ok then Closing(req, Verdict(Sent, k, None))
                          else if recoverable then Backoff(req, k)
                          else Closing(req, Verdict(Failed, k, Some(code)))
      ensures !ok && !recoverable ==> code == "hermes_command_missing"
      ensures Entries(Now().log, req.id) == old(Entries(Now().log, req.id)) + 1
      ensures Successes(Now().log, req.id) == old(Successes(Now().log, req.id)) + if ok then 1 else 0
    {
      hide IsRun, Entries, Successes;
      Logged(Now().log, Entered(req.id), req.id);
      Took(Now().(log := Now().log + [Entered(req.id)], pc := Running(req, k)));
      match outcome {
        case CommandMissing => ok, code, recoverable := false, "hermes_command_missing", false;
        case TimedOut => ok, code, recoverable := false, "hermes_send_timeout", true;
        case OsError => ok, code, recoverable := false, "hermes_send_os_error", true;
        case Exit(n) =>
          if n == 0 {
            ok, code, recoverable := true, "", false;
          } else {
            ok, code, recoverable := false, "hermes_send_failed", true;
          }
      }
      if ok {
        Logged(Now().log, Succeeded(req.id), req.id);
        Took(Now().(log := Now().log + [Succeeded(req.id)], pc := Closing(req, Verdict(Sent, k, None))));
      } else if recoverable {
        Took(Now().(pc := Backoff(req, k)));
      } else {
        Took(Now().(pc := Closing(req, Verdict(Failed, k, Some("hermes_command_missing")))));
      }
    }

    /** What the caller learns when a valid request is over: a call is abandoned only by a crash,
        and any other has its stored verdict, a final one, published last. */
    ghost predicate Ended(before: seq<World>, id: MessageId, outcome: Outcome, mortal: bool)
      reads this, ledger
    {
      && Reached(before, Idle)
      && (outcome.Abandoned? ==> mortal)
      && (!outcome.Abandoned? ==>
            && id in ledger.rows && ledger.rows[id].verdict.status.Final()
            && |Now().log| > 0
            && Now().log[|Now().log| - 1] == Published(id, ledger.rows[id].verdict, outcome.Acknowledge?))
    }

    /** Ended, if not by a crash then with this verdict. */
    ghost predicate EndedWith(before: seq<World>, id: MessageId, outcome: Outcome, mortal: bool, v: Verdict)
      reads this, ledger
    {
      Ended(before, id, outcome, mortal) && (!outcome.Abandoned? ==> ledger.rows[id].verdict == v)
    }

    /** Publishes a verdict the ledger already holds. */
    method Report(req: Request, v: Verdict) returns (outcome: Outcome)
      requires Valid() && Now().pc == Reporting(req, v)
      modifies this`trace
      ensures EndedWith(old(trace), req.id, outcome, false, v) && ledger.rows == old(ledger.rows)
    {
      hide IsRun;
      RunKeepsInv(Config(), trace, |trace| - 1);
      var ok := Publish(req, v);
      outcome := if ok then Acknowledge else Withhold;
    }

    /** Stores a final verdict, then publishes it. */
    method Finish(req: Request, v: Verdict, mortal: bool) returns (outcome: Outcome)
      requires Valid() && Now().pc == Closing(req, v)
      modifies this`clock, this`trace, ledger
      ensures EndedWith(old(trace), req.id, outcome, mortal, v) && old(clock) <= clock
      ensures !outcome.Abandoned? ==>
                ledger.rows[req.id].finishedAt.Some? && old(clock) <= ledger.rows[req.id].finishedAt.value <= clock
    {
      hide IsRun;
      var t := Clock();
      ledger.Update(req.id, v, Some(t));
      Took(Now().(rows := ledger.rows, pc := Reporting(req, v)));
      var killed := Killed(mortal);
      if killed {
        return Abandoned;
      }
      outcome := Report(req, v);
    }

    /** What triage will decide here, in terms of the row left behind and of the limits. */
    lemma FindCourse(req: Request, at: int)
      requires Valid() && Now().pc == Looking(req, at)
      ensures match CourseOf(ledger.rows, req, at)
              case Told(v) => Triage(ledger.rows, req, at).1 == Reporting(req, v) || Triage(ledger.rows, req, at).1 == Closing(req, v)
              case ToSend =>
                && Triage(ledger.rows, req, at).0 == Admitted(ledger.rows, req, at)
                && (Triage(ledger.rows, req, at).1.Rested? || Triage(ledger.rows, req, at).1.AnnouncingAccept?)
    {
      hide IsRun, CourseOf, Triage, WindowsBounded, DuplicatesApart;
      RunKeepsInv(Config(), trace, |trace| - 1);
      LimitsHold(Config(), trace, |trace| - 1);
      TriageFollowsCourse(ledger.rows, req, at);
    }

    /** Looks the message up and decides; None means that the send loop is to be entered. */
    method Admit(req: Request, at: int, mortal: bool) returns (outcome: Option<Outcome>)
      requires Valid() && Now().pc == Looking(req, at)
      modifies this`clock, this`trace, ledger
      ensures old(clock) <= clock
      ensures outcome.Some? ==> Ended(old(trace), req.id, outcome.value, mortal)
      ensures outcome.Some? && !outcome.value.Abandoned? ==> CourseOf(old(ledger.rows), req, at) == Told(ledger.rows[req.id].verdict)
      ensures outcome.None? ==>
                Reached(old(trace), Rested(req, 0)) && CourseOf(old(ledger.rows), req, at) == ToSend
                && ledger.rows == Admitted(old(ledger.rows), req, at)
    {
      hide IsRun, CourseOf;
      FindCourse(req, at);
      var existing := ledger.Get(req.id);
      if existing.Some? {
        var v := existing.value.verdict;
        if v.status.Final() {
          Took(Now().(pc := Reporting(req, v)));
          var o := Report(req, v);
          return Some(o);
        }
        if at >= req.ExpiresAt() {
          var o := Close(req, at, Verdict(Expired, v.attempts, Some("ttl_expired")), mortal);
          return Some(o);
        }
        if v.status.Sending? || v.status.Retrying? {
          var o := Close(req, at, Verdict(Failed, v.attempts, Some("delivery_state_unknown")), mortal);
          return Some(o);
        }
        Took(Now().(pc := Rested(req, 0)));
        return None;
      }
      outcome := Register(req, at, mortal);
    }

    /** Ends a call that found its message in the ledger. */
    method Close(req: Request, ghost at: int, v: Verdict, mortal: bool) returns (outcome: Outcome)
      requires Valid() && Now().pc == Looking(req, at) && Triage(ledger.rows, req, at) == (ledger.rows, Closing(req, v))
      modifies this`clock, this`trace, ledger
      ensures EndedWith(old(trace), req.id, outcome, mortal, v) && old(clock) <= clock
    {
      hide IsRun;
      Took(Now().(pc := Closing(req, v)));
      outcome := Finish(req, v, mortal);
    }

    /** First sight of a message: expired, duplicate, rate limited or accepted. */
    method Register(req: Request, at: int, mortal: bool) returns (outcome: Option<Outcome>)
      requires Valid() && Now().pc == Looking(req, at) && req.id !in ledger.rows
      modifies this`clock, this`trace, ledger
      ensures old(clock) <= clock
      ensures outcome.Some? ==> Ended(old(trace), req.id, outcome.value, mortal)
      ensures outcome.Some? && !outcome.value.Abandoned? ==> CourseOf(old(ledger.rows), req, at) == Told(ledger.rows[req.id].verdict)
      ensures outcome.None? ==>
                Reached(old(trace), Rested(req, 0)) && CourseOf(old(ledger.rows), req, at) == ToSend
                && ledger.rows == Admitted(old(ledger.rows), req, at)
    {
      hide IsRun, CourseOf;
      FindCourse(req, at);
      if at >= req.ExpiresAt() {
        var o := Refuse(req, at, Verdict(Expired, 0, Some("ttl_expired")), mortal);
        return Some(o);
      }
      var duplicate := ledger.HasRecentDedupe(req.dedupeKey, at - DEDUPE_WINDOW);
      if duplicate {
        var o := Refuse(req, at, Verdict(Duplicate, 0, Some("dedupe_window")), mortal);
        return Some(o);
      }
      var sourceCount := ledger.CountRecent(at - RATE_WINDOW, Some(req.source));
      var globalCount := ledger.CountRecent(at - RATE_WINDOW, None);
      if sourceCount >= SOURCE_LIMIT || globalCount >= GLOBAL_LIMIT {
        var o := Refuse(req, at, Verdict(Failed, 0, Some("rate_limited")), mortal);
        return Some(o);
      }
      outcome := Accept(req, at, mortal);
    }

    /** Stores and announces a message that may be sent. */
    method Accept(req: Request, at: int, mortal: bool) returns (outcome: Option<Outcome>)
      requires Valid() && Now().pc == Looking(req, at) && req.id !in ledger.rows
      requires Triage(ledger.rows, req, at) == (ledger.rows[req.id := NewRow(req, Accepted, at)], AnnouncingAccept(req))
      modifies this`trace, ledger
      ensures outcome.Some? ==> outcome.value.Abandoned? && Ended(old(trace), req.id, outcome.value, mortal)
      ensures outcome.None? ==> Reached(old(trace), Rested(req, 0)) && ledger.rows == Triage(old(ledger.rows), req, at).0
    {
      hide IsRun;
      var _ := ledger.Insert(req, Accepted, at);
      Took(Now().(rows := ledger.rows, pc := AnnouncingAccept(req)));
      var killed := Killed(mortal);
      if killed {
        return Some(Abandoned);
      }
      var _ := Publish(req, Verdict(Accepted, 0, None));
      killed := Killed(mortal);
      return if killed then Some(Abandoned) else None;
    }

    /** Stores a new message only to close it. */
    method Refuse(req: Request, at: int, v: Verdict, mortal: bool) returns (outcome: Outcome)
      requires Valid() && Now().pc == Looking(req, at) && req.id !in ledger.rows
      requires Triage(ledger.rows, req, at) == (ledger.rows[req.id := NewRow(req, v.status, at)], Closing(req, v))
      modifies this`clock, this`trace, ledger
      ensures EndedWith(old(trace), req.id, outcome, mortal, v) && old(clock) <= clock
    {
      hide IsRun;
      var _ := ledger.Insert(req, v.status, at);
      Took(Now().(rows := ledger.rows, pc := Closing(req, v)));
      var killed := Killed(mortal);
      if killed {
        return Abandoned;
      }
      outcome := Finish(req, v, mortal);
    }

    /** Waits out one retry delay; None means that the next attempt is due. */
    method WaitForRetry(req: Request, k: nat, delay: nat, mortal: bool) returns (outcome: Option<Outcome>)
      requires Valid() && Now().pc == Backoff(req, k) && 1 <= k <= |delays| && delay == delays[k - 1]
      modifies this`clock, this`trace, ledger
      ensures old(clock) <= clock
      ensures outcome.Some? ==> EndedWith(old(trace), req.id, outcome.value, mortal, Verdict(Expired, k, Some("ttl_expired")))
      ensures outcome.Some? && !outcome.value.Abandoned? ==> delay > 0 && clock + delay * SECOND >= req.ExpiresAt()
      ensures outcome.None? ==> Reached(old(trace), Rested(req, k))
    {
      hide IsRun, Entries, Successes;
      if delay == 0 {
        Took(Now().(pc := Rested(req, k)));
        return None;
      }
      var t := Clock();
      if t + delay * SECOND >= req.ExpiresAt() {
        Took(Now().(pc := Closing(req, Verdict(Expired, k, Some("ttl_expired")))));
        var o := Finish(req, Verdict(Expired, k, Some("ttl_expired")), mortal);
        return Some(o);
      }
      ledger.Update(req.id, Verdict(Retrying, k, Some("hermes_retry_scheduled")), None);
      Took(Now().(rows := ledger.rows, pc := AnnouncingRetry(req, k)));
      outcome := Sleep(req, k, mortal);
    }

    /** Announces the retry and waits. */
    method Sleep(req: Request, k: nat, mortal: bool) returns (outcome: Option<Outcome>)
      requires Valid() && Now().pc == AnnouncingRetry(req, k)
      modifies this`clock, this`trace
      ensures old(clock) <= clock
      ensures outcome.Some? ==> outcome.value.Abandoned? && Ended(old(trace), req.id, outcome.value, mortal)
      ensures outcome.None? ==> Reached(old(trace), Rested(req, k))
    {
      hide IsRun, Step, Entries, Successes;
      var killed := Killed(mortal);
      if killed {
        return Some(Abandoned);
      }
      var _ := Publish(req, Verdict(Retrying, k, Some("hermes_retry_scheduled")));
      var _ := Clock();
      killed := Killed(mortal);
      return if killed then Some(Abandoned) else None;
    }

    /** Stores that the next attempt is about to begin. */
    method StoreSending(req: Request, k: nat)
      requires Valid() && Now().pc == Rested(req, k)
      modifies this`trace, ledger
      ensures Reached(old(trace), AnnouncingSend(req, k + 1))
      ensures ledger.rows == SetVerdict(old(ledger.rows), req.id, Verdict(Sending, k + 1, None), None)
    {
      hide IsRun;
      ledger.Update(req.id, Verdict(Sending, k + 1, None), None);
      Took(Now().(rows := ledger.rows, pc := AnnouncingSend(req, k + 1)));
    }

    /** Stores `sending`, announces it and enters the send command; None means worth retrying. */
    method Attempt(req: Request, k: nat, result: RunnerOutcome, mortal: bool) returns (outcome: Option<Outcome>)
      requires Valid() && Now().pc == Rested(req, k)
      modifies this`clock, this`trace, ledger
      ensures old(clock) <= clock
      ensures outcome.Some? ==>
                EndedWith(old(trace), req.id, outcome.value, mortal,
                          if result.Delivers() then Verdict(Sent, k + 1, None)
                          else Verdict(Failed, k + 1, Some("hermes_command_missing")))
      ensures outcome.Some? && !outcome.value.Abandoned? ==> !result.Recoverable()
      ensures outcome.None? ==> Reached(old(trace), Backoff(req, k + 1)) && result.Recoverable()
    {
      hide IsRun, Step, Entries, Successes;
      StoreSending(req, k);
      var killed := Killed(mortal);
      if killed {
        return Some(Abandoned);
      }
      var _ := Publish(req, Verdict(Sending, k + 1, None));
      killed := Killed(mortal);
      if killed {
        return Some(Abandoned);
      }
      outcome := SendAndClose(req, k + 1, result, mortal);
    }

    /** Enters the send command and, unless that is worth retrying, closes the message. */
    method SendAndClose(req: Request, k: nat, result: RunnerOutcome, mortal: bool) returns (outcome: Option<Outcome>)
      requires Valid() && Now().pc == Armed(req, k)
      modifies this`clock, this`trace, ledger
      ensures old(clock) <= clock
      ensures outcome.Some? ==>
                EndedWith(old(trace), req.id, outcome.value, mortal,
                          if result.Delivers() then Verdict(Sent, k, None) else Verdict(Failed, k, Some("hermes_command_missing")))
      ensures outcome.Some? && !outcome.value.Abandoned? ==> !result.Recoverable()
      ensures outcome.None? ==> Reached(old(trace), Backoff(req, k)) && result.Recoverable()
    {
      hide IsRun, Step, Entries, Successes;
      var ok, code, recoverable := SendOnce(req, k, result);
      var killed := Killed(mortal);
      if killed {
        return Some(Abandoned);
      }
      if ok {
        var o := Finish(req, Verdict(Sent, k, None), mortal);
        return Some(o);
      }
      if !recoverable {
        var o := Finish(req, Verdict(Failed, k, Some(code)), mortal);
        return Some(o);
      }
      return None;
    }

    /** The send loop: one attempt, then one per retry delay. */
    method Send(req: Request, outcomes: nat -> RunnerOutcome, mortal: bool) returns (outcome: Outcome)
      requires Valid() && Now().pc == Rested(req, 0)
      modifies this`clock, this`trace, ledger
      ensures Ended(old(trace), req.id, outcome, mortal) && old(clock) <= clock
      ensures !outcome.Abandoned? ==> Concluded(delays, req, outcomes, clock, ledger.rows[req.id].verdict)
    {
      hide IsRun, Step, Concluded;
      var attempts := 0;
      while attempts <= |delays|
        invariant 0 <= attempts <= 1 + |delays| && old(clock) <= clock
        invariant Reached(old(trace), if attempts == 0 then Rested(req, 0) else Backoff(req, attempts))
        invariant forall i :: 1 <= i <= attempts ==> outcomes(i).Recoverable()
      {
        var over := Round(req, attempts, outcomes, mortal);
        if over.Some? {
          return over.value;
        }
        attempts := attempts + 1;
      }
      outcome := GiveUp(req, attempts, mortal);
      ExhaustionConcludes(delays, req, outcomes, clock);
    }

    /** One turn of the loop: the wait before a retry, and the attempt. */
    method Round(req: Request, attempts: nat, outcomes: nat -> RunnerOutcome, mortal: bool) returns (outcome: Option<Outcome>)
      requires Valid() && Now().pc == (if attempts == 0 then Rested(req, 0) else Backoff(req, attempts))
      requires attempts <= |delays| && forall i :: 1 <= i <= attempts ==> outcomes(i).Recoverable()
      modifies this`clock, this`trace, ledger
      ensures old(clock) <= clock
      ensures outcome.Some? ==> Ended(old(trace), req.id, outcome.value, mortal)
      ensures outcome.Some? && !outcome.value.Abandoned? ==> Concluded(delays, req, outcomes, clock, ledger.rows[req.id].verdict)
      ensures outcome.None? ==> Reached(old(trace), Backoff(req, attempts + 1)) && outcomes(attempts + 1).Recoverable()
    {
      hide IsRun, Step, Concluded;
      if attempts > 0 {
        outcome := WaitForRetry(req, attempts, delays[attempts - 1], mortal);
        if outcome.Some? {
          if !outcome.value.Abandoned? {
            ExpiryConcludes(delays, req, outcomes, clock, attempts);
          }
          return;
        }
      }
      outcome := Attempt(req, attempts, outcomes(attempts + 1), mortal);
      if outcome.Some? && !outcome.value.Abandoned? {
        AttemptConcludes(delays, req, outcomes, clock, attempts + 1);
      }
    }

    method GiveUp(req: Request, attempts: nat, mortal: bool) returns (outcome: Outcome)
      requires Valid() && Now().pc == Backoff(req, attempts) && attempts == 1 + |delays|
      modifies this`clock, this`trace, ledger
      ensures EndedWith(old(trace), req.id, outcome, mortal, Verdict(Failed, attempts, Some("retry_exhausted"))) && old(clock) <= clock
    {
      hide IsRun;
      Took(Now().(pc := Closing(req, Verdict(Failed, attempts, Some("retry_exhausted")))));
      outcome := Finish(req, Verdict(Failed, attempts, Some("retry_exhausted")), mortal);
    }

    /** An invalid delivery is answered with its error code. */
    ghost predicate Refused(id: MessageId, code: string, outcome: Outcome)
      reads this, ledger
    {
      && !outcome.Abandoned? && |trace| > 0 && |Now().log| > 0
      && Now().log[|Now().log| - 1] == Published(id, Verdict(Failed, 0, Some(code)), outcome.Acknowledge?)
    }

    /** Parsing failed at this time; the answer bears the payload's own id when that one was usable. */
    ghost predicate Unparsed(p: Payload, at: int, freshId: MessageId, outcome: Outcome)
      reads this, ledger
    {
      var parsed := Parse(p, at);
      && parsed.Failure?
      && Refused(if p.idMatches && parsed.error.messageId == p.messageId then p.messageId else freshId, parsed.error.code, outcome)
    }

    /** The verdict due to a valid request that was read at this time.  Of a row still retained then
        only its status, its attempts and the time count; a new message is measured by the limits. */
    ghost predicate Due(rows: Rows, req: Request, at: int, outcomes: nat -> RunnerOutcome, v: Verdict)
      reads this
    {
      var kept := map id | id in rows && rows[id].receivedAt >= at - RETENTION :: rows[id];
      match CourseOf(kept, req, at)
      case Told(u) => v == u
      case ToSend => Concluded(delays, req, outcomes, clock, v)
    }

    /** Processes one delivery, whatever it says.  The history only grows, by machine steps.  Either
        parsing failed and no row changed, or the call ended, unless by a crash, with the verdict
        that the rows, the time and the attempts call for stored and published. */
    method Process(raw: Delivery, freshId: MessageId, outcomes: nat -> RunnerOutcome, mortal: bool) returns (outcome: Outcome)
      requires Valid() && Now().pc.Idle?
      modifies this`clock, this`trace, ledger
      ensures Reached(old(trace), Idle) && old(clock) <= clock
      ensures raw.Undecodable? ==> ledger.rows == old(ledger.rows) && Refused(freshId, "invalid_json", outcome)
      ensures raw.Decoded? ==>
                exists t :: old(clock) <= t <= clock
                  && if Parse(raw.payload, t).Failure?
                     then ledger.rows == old(ledger.rows) && Unparsed(raw.payload, t, freshId, outcome)
                     else Ended(old(trace), raw.payload.messageId, outcome, mortal)
      ensures raw.Decoded? && Parse(raw.payload, old(clock)).Success? ==>
                && Ended(old(trace), raw.payload.messageId, outcome, mortal)
                && (!outcome.Abandoned? ==>
                      exists at :: old(clock) <= at <= clock
                        && Due(old(ledger.rows), AsRequest(raw.payload), at, outcomes, ledger.rows[raw.payload.messageId].verdict))
    {
      hide IsRun, Entries, Successes;
      if raw.Undecodable? {
        var ok := PublishInvalid(freshId, "invalid_json");
        return if ok then Acknowledge else Withhold;
      }
      var p := raw.payload;
      var parsedAt := Clock();
      var parsed := Parse(p, parsedAt);
      if parsed.Failure? {
        var id := if p.idMatches && parsed.error.messageId == p.messageId then p.messageId else freshId;
        var ok := PublishInvalid(id, parsed.error.code);
        outcome := if ok then Acknowledge else Withhold;
        assert Unparsed(p, parsedAt, freshId, outcome);
        return;
      }
      outcome := Handle(parsed.value, outcomes, mortal);
    }

    /** Processes one valid request. */
    method Handle(req: Request, outcomes: nat -> RunnerOutcome, mortal: bool) returns (outcome: Outcome)
      requires Valid() && Now().pc.Idle?
      requires MIN_TTL <= req.ttl <= MAX_TTL && req.createdAt <= clock + SKEW
      modifies this`clock, this`trace, ledger
      ensures Ended(old(trace), req.id, outcome, mortal) && old(clock) <= clock
      ensures !outcome.Abandoned? ==>
                exists at :: old(clock) <= at <= clock && Due(old(ledger.rows), req, at, outcomes, ledger.rows[req.id].verdict)
    {
      hide IsRun, Entries, Successes, Triage, Concluded, CourseOf;
      ghost var rows := ledger.rows;
      var at := Clock();
      ledger.Cleanup(at - RETENTION);
      Took(World(ledger.rows, at, Looking(req, at), Now().log));
      var killed := Killed(mortal);
      if killed {
        return Abandoned;
      }
      var over := Admit(req, at, mortal);
      if over.Some? {
        assert !over.value.Abandoned? ==> Due(rows, req, at, outcomes, ledger.rows[req.id].verdict);
        return over.value;
      }
      outcome := Send(req, outcomes, mortal);
      assert !outcome.Abandoned? ==> Due(rows, req, at, outcomes, ledger.rows[req.id].verdict);
    }
  }
}
