/** The staged-image table: what uploads, sweeps and reads do to it, with every expiry
    comparison made on text as the database makes it. */
module ImageTable {
  import opened Wrappers
  import opened Bytes
  import opened IsoTime
  import opened Sets

  const CAPACITY := 1024
  const OFFSET := "+08:00"
  const LIFETIME := 24 * 60 * 60 * 1_000_000

  type ImageRef = string

  datatype Row = Row(requestId: string, host: string, mime: string, body: seq<Byte>, digest: string, expires: Moment)

  type Rows = map<ImageRef, Row>

  datatype Upload = Upload(requestId: string, host: string, mime: string, body: seq<Byte>, digest: string)

  datatype StoreError = RequestConflict | CapacityReached | IntegrityError | Unavailable

  predicate SameUpload(row: Row, u: Upload) {
    row.requestId == u.requestId && row.digest == u.digest && row.host == u.host && row.mime == u.mime
  }

  /** `expires_at > now` as a comparison of texts. */
  predicate Unexpired(row: Row, now: Moment)
    requires Valid(row.expires) && Valid(now)
  {
    TextLess(Iso(now, OFFSET), Iso(row.expires, OFFSET))
  }

  ghost predicate TimesValid(rows: Rows) {
    forall ref :: ref in rows ==> Valid(rows[ref].expires)
  }

  /** The table without the rows a deletion by text removes. */
  function Live(rows: Rows, now: Moment): Rows
    requires TimesValid(rows) && Valid(now)
  {
    map ref | ref in rows && Unexpired(rows[ref], now) :: rows[ref]
  }

  lemma UnexpiredMeansLater(row: Row, now: Moment)
    requires Valid(row.expires) && Valid(now)
    ensures Unexpired(row, now) <==> Instant(now) < Instant(row.expires)
  {
    TextOrderIsTimeOrder(now, row.expires, OFFSET);
  }

  ghost predicate HasRequest(rows: Rows, ref: ImageRef, requestId: string) {
    ref in rows && rows[ref].requestId == requestId
  }

  // ---------------------------------------------------------------- operations

  datatype Operation =
    | Uploaded(upload: Upload, now: Moment, expires: Moment, newRef: ImageRef, result: Result<ImageRef, StoreError>)
    | Swept(now: Moment)
    | Read(now: Moment)

  /** One transaction: expired rows go, then the request is found, refused or inserted.
      A refusal undoes the deletion. */
  ghost predicate Uploads(rows: Rows, rows': Rows, u: Upload, now: Moment, expires: Moment, newRef: ImageRef,
                          result: Result<ImageRef, StoreError>)
    requires TimesValid(rows) && Valid(now)
  {
    var live := Live(rows, now);
    match result
    case Success(ref) =>
      if exists r :: HasRequest(live, r, u.requestId)
      then HasRequest(live, ref, u.requestId) && SameUpload(live[ref], u) && rows' == live
      else ref == newRef && ref !in live && |live| < CAPACITY
           && rows' == live[ref := Row(u.requestId, u.host, u.mime, u.body, u.digest, expires)]
    case Failure(error) =>
      && rows' == rows
      && match error
         case RequestConflict => exists r :: HasRequest(live, r, u.requestId) && !SameUpload(live[r], u)
         case CapacityReached => |live| >= CAPACITY && !exists r :: HasRequest(live, r, u.requestId)
         case IntegrityError => newRef in live && !exists r :: HasRequest(live, r, u.requestId)
         case Unavailable => false
  }

  predicate Expires(now: Moment, expires: Moment) {
    Valid(now) && Valid(expires) && Instant(expires) == Instant(now) + LIFETIME
  }

  ghost predicate Step(rows: Rows, rows': Rows, op: Operation) {
    && TimesValid(rows) && Valid(op.now)
    && match op
       case Uploaded(u, now, expires, newRef, result) =>
         Expires(now, expires) && Uploads(rows, rows', u, now, expires, newRef, result)
       case Swept(now) => rows' == Live(rows, now)
       case Read(now) => rows' == rows
  }

  ghost predicate IsRun(run: seq<Rows>, ops: seq<Operation>) {
    && |run| == |ops| + 1
    && run[0] == map[]
    && forall i :: 0 <= i < |ops| ==> Step(run[i], run[i + 1], ops[i])
  }

  lemma RunExtends(run: seq<Rows>, ops: seq<Operation>, rows: Rows, op: Operation)
    requires IsRun(run, ops) && Step(run[|run| - 1], rows, op)
    ensures IsRun(run + [rows], ops + [op])
  {
    hide Step;
  }

  // ---------------------------------------------------------------- over every run

  ghost predicate Inv(rows: Rows) {
    && TimesValid(rows)
    && |rows| <= CAPACITY
    && forall a, b :: a in rows && b in rows && rows[a].requestId == rows[b].requestId ==> a == b
  }

  lemma LiveIsSmaller(rows: Rows, now: Moment)
    requires TimesValid(rows) && Valid(now)
    ensures |Live(rows, now)| <= |rows|
  {
    SubsetSize(Live(rows, now).Keys, rows.Keys);
  }

  lemma StepKeepsInv(rows: Rows, rows': Rows, op: Operation)
    requires Inv(rows) && Step(rows, rows', op)
    ensures Inv(rows')
  {
    hide Unexpired, Instant;
    var live := Live(rows, op.now);
    LiveIsSmaller(rows, op.now);
    if op.Uploaded? && op.result.Success? && !exists r :: HasRequest(live, r, op.upload.requestId) {
      var u := op.upload;
      NewRowKeepsInv(live, op.newRef, Row(u.requestId, u.host, u.mime, u.body, u.digest, op.expires));
    }
  }

  lemma NewRowKeepsInv(live: Rows, ref: ImageRef, row: Row)
    requires Inv(live) && |live| < CAPACITY && ref !in live && Valid(row.expires)
    requires !exists r :: HasRequest(live, r, row.requestId)
    ensures Inv(live[ref := row])
  {
    forall r | r in live ensures live[r].requestId != row.requestId {
      assert !HasRequest(live, r, row.requestId);
    }
  }

  /** At most 1024 rows, and never two for one request, over every run. */
  lemma {:induction false} TableStaysBounded(run: seq<Rows>, ops: seq<Operation>, i: nat)
    requires IsRun(run, ops) && i < |run|
    ensures Inv(run[i])
  {
    hide Unexpired, Instant;
    if i > 0 {
      TableStaysBounded(run, ops, i - 1);
      StepKeepsInv(run[i - 1], run[i], ops[i - 1]);
    } else {
      assert run[0] == map[];
    }
  }

  lemma StepKeepsRow(rows: Rows, rows': Rows, op: Operation, ref: ImageRef)
    requires Inv(rows) && Step(rows, rows', op) && ref in rows && Instant(op.now) < Instant(rows[ref].expires)
    ensures ref in rows' && rows'[ref] == rows[ref]
  {
    hide Unexpired, Instant;
    UnexpiredMeansLater(rows[ref], op.now);
  }

  /** A row stays, unchanged, as long as no operation's clock reaches its expiry. */
  lemma {:induction false} RowStaysUntilExpiry(run: seq<Rows>, ops: seq<Operation>, i: nat, j: nat, ref: ImageRef)
    requires IsRun(run, ops) && i <= j < |run| && ref in run[i] && Valid(run[i][ref].expires)
    requires forall k :: i <= k < j ==> Valid(ops[k].now) && Instant(ops[k].now) < Instant(run[i][ref].expires)
    ensures ref in run[j] && run[j][ref] == run[i][ref]
  {
    hide Unexpired, Instant;
    if i == j {
    } else {
      RowStaysUntilExpiry(run, ops, i, j - 1, ref);
      TableStaysBounded(run, ops, j - 1);
      StepKeepsRow(run[j - 1], run[j], ops[j - 1], ref);
    }
  }

  /** A request id that was answered with an image gets that same image again, or a conflict if
      its content changed, for as long as the image has not expired. */
  lemma RepeatedUploadRepeatsTheImage(run: seq<Rows>, ops: seq<Operation>, i: nat, j: nat)
    requires IsRun(run, ops) && i < j < |ops| && ops[i].Uploaded? && ops[j].Uploaded?
    requires ops[i].result.Success? && ops[i].upload.requestId == ops[j].upload.requestId
    requires ops[i].result.value in run[i + 1] && Valid(run[i + 1][ops[i].result.value].expires)
    requires forall k :: i < k <= j ==> Valid(ops[k].now) && Instant(ops[k].now) < Instant(run[i + 1][ops[i].result.value].expires)
    ensures ops[j].result == Success(ops[i].result.value) || ops[j].result == Failure(RequestConflict)
    ensures var first, again := ops[i].upload, ops[j].upload;
            ops[j].result.Success? <==> first.digest == again.digest && first.host == again.host && first.mime == again.mime
  {
    hide Unexpired, Instant;
    var ref, rows := ops[i].result.value, run[j];
    assert Step(run[i], run[i + 1], ops[i]);
    assert HasRequest(run[i + 1], ref, ops[j].upload.requestId);
    RowStaysUntilExpiry(run, ops, i + 1, j, ref);
    TableStaysBounded(run, ops, j);
    assert Step(rows, run[j + 1], ops[j]);
    UnexpiredMeansLater(rows[ref], ops[j].now);
    assert HasRequest(Live(rows, ops[j].now), ref, ops[j].upload.requestId);
  }
}
