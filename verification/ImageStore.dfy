/** The image store as the program runs it. */
module ImageStore {
  import opened Wrappers
  import opened Bytes
  import opened IsoTime
  import opened ImageTable

  datatype Public = Public(ref: ImageRef, mime: string, byteSize: nat, expires: Moment)

  const MAX_REFS := 4

  class DesktopImageStore {
    var rows: Rows
    ghost var run: seq<Rows>
    ghost var ops: seq<Operation>

    ghost predicate Valid()
      reads this
    {
      |run| > 0 && IsRun(run, ops) && run[|run| - 1] == rows && Inv(rows)
    }

    constructor ()
      ensures Valid() && rows == map[]
    {
      rows, run, ops := map[], [map[]], [];
    }

    ghost method Record(before: Rows, op: Operation)
      requires |run| > 0 && IsRun(run, ops) && run[|run| - 1] == before && Inv(before) && Step(before, rows, op)
      modifies this`run, this`ops
      ensures Valid() && run == old(run) + [rows] && ops == old(ops) + [op]
    {
      hide IsRun, Step, Inv;
      StepKeepsInv(before, rows, op);
      RunExtends(run, ops, rows, op);
      run := run + [rows];
      ops := ops + [op];
    }

    function PublicOf(ref: ImageRef): Public
      requires ref in rows
      reads this
    {
      Public(ref, rows[ref].mime, |rows[ref].body|, rows[ref].expires)
    }

    /** Stages one image, or finds what the same request staged before. */
    method Upload(u: ImageTable.Upload, now: Moment, expires: Moment, newRef: ImageRef) returns (result: Result<Public, StoreError>)
      requires Valid() && Expires(now, expires)
      modifies this
      ensures Valid() && run == old(run) + [rows] && |ops| == |old(ops)| + 1
      ensures Uploads(old(rows), rows, u, now, expires, newRef,
                      if result.Success? then Success(result.value.ref) else Failure(result.error))
      ensures result.Success? ==> result.value.ref in rows && result.value == PublicOf(result.value.ref)
      ensures result.Failure? ==> rows == old(rows)
    {
      hide Iso, TextLess, Instant, IsRun;
      ghost var before := rows;
      var live := map ref | ref in rows && TextLess(Iso(now, OFFSET), Iso(rows[ref].expires, OFFSET)) :: rows[ref];
      assert live == Live(rows, now);
      var decision, known := Decide(live, u, newRef);
      if decision.Success? {
        rows := if known then live else live[newRef := Row(u.requestId, u.host, u.mime, u.body, u.digest, expires)];
      }
      DecisionIsUpload(before, rows, u, now, expires, newRef, decision, known);
      Record(before, Uploaded(u, now, expires, newRef, decision));
      result := if decision.Success? then Success(PublicOf(decision.value)) else Failure(decision.error);
    }

    lemma DecisionIsUpload(before: Rows, after: Rows, u: ImageTable.Upload, now: Moment, expires: Moment, newRef: ImageRef,
                           decision: Result<ImageRef, StoreError>, known: bool)
      requires TimesValid(before) && IsoTime.Valid(now) && Decided(Live(before, now), u, newRef, decision, known)
      requires after == if decision.Failure? then before
                        else if known then Live(before, now)
                        else Live(before, now)[newRef := Row(u.requestId, u.host, u.mime, u.body, u.digest, expires)]
      ensures Uploads(before, after, u, now, expires, newRef, decision)
    {
      hide Live;
    }

    ghost predicate Decided(live: Rows, u: ImageTable.Upload, newRef: ImageRef, decision: Result<ImageRef, StoreError>, known: bool) {
      && (known <==> exists r :: HasRequest(live, r, u.requestId))
      && (known ==> if decision.Success? then HasRequest(live, decision.value, u.requestId) && SameUpload(live[decision.value], u)
                    else decision.error == RequestConflict && exists r :: HasRequest(live, r, u.requestId) && !SameUpload(live[r], u))
      && (!known ==> decision == if |live| >= CAPACITY then Failure(CapacityReached)
                                 else if newRef in live then Failure(IntegrityError) else Success(newRef))
    }

    /** Over the live rows: the image this request has, the new reference, or why not. */
    method Decide(live: Rows, u: ImageTable.Upload, newRef: ImageRef) returns (decision: Result<ImageRef, StoreError>, known: bool)
      ensures Decided(live, u, newRef, decision, known)
    {
      var found := FindRequest(live, u.requestId);
      if found.Some? {
        var row := live[found.value];
        if row.digest != u.digest || row.host != u.host || row.mime != u.mime {
          return Failure(RequestConflict), true;
        }
        return Success(found.value), true;
      }
      if |live| >= CAPACITY {
        return Failure(CapacityReached), false;
      }
      if newRef in live {
        return Failure(IntegrityError), false;
      }
      return Success(newRef), false;
    }

    method FindRequest(table: Rows, requestId: string) returns (found: Option<ImageRef>)
      ensures found.Some? ==> HasRequest(table, found.value, requestId)
      ensures found.None? ==> !exists r :: HasRequest(table, r, requestId)
    {
      var todo := table.Keys;
      while todo != {}
        invariant todo <= table.Keys
        invariant forall r :: HasRequest(table, r, requestId) ==> r in todo
        decreases todo
      {
        var ref :| ref in todo;
        if table[ref].requestId == requestId {
          return Some(ref);
        }
        todo := todo - {ref};
      }
      found := None;
    }

    /** An image of this host that has not expired. */
    method Get(ref: ImageRef, now: Moment, host: Option<string>) returns (result: Result<seq<Byte>, StoreError>)
      requires Valid() && IsoTime.Valid(now)
      ensures result.Success? <==>
                ref in rows && Instant(now) < Instant(rows[ref].expires) && (host.Some? ==> rows[ref].host == host.value)
      ensures result.Success? ==> result.value == rows[ref].body
      ensures result.Failure? ==> result.error == Unavailable
    {
      hide Iso, TextLess, Instant, IsRun;
      if ref in rows {
        UnexpiredMeansLater(rows[ref], now);
      }
      if ref !in rows || !TextLess(Iso(now, OFFSET), Iso(rows[ref].expires, OFFSET)) {
        return Failure(Unavailable);
      }
      if host.Some? && rows[ref].host != host.value {
        return Failure(Unavailable);
      }
      result := Success(rows[ref].body);
    }

    method Sweep(now: Moment) returns (count: nat)
      requires Valid() && IsoTime.Valid(now)
      modifies this
      ensures Valid() && run == old(run) + [rows]
      ensures count == |old(rows)| - |rows|
      ensures forall ref :: ref in rows <==> ref in old(rows) && Instant(now) < Instant(old(rows)[ref].expires)
    {
      hide Iso, TextLess, Instant, IsRun;
      ghost var before := rows;
      var live := map ref | ref in rows && TextLess(Iso(now, OFFSET), Iso(rows[ref].expires, OFFSET)) :: rows[ref];
      LiveIsSmaller(rows, now);
      assert live == Live(rows, now);
      forall ref | ref in rows ensures ref in live <==> Instant(now) < Instant(rows[ref].expires) {
        UnexpiredMeansLater(rows[ref], now);
      }
      count := |rows| - |live|;
      rows := live;
      Record(before, Swept(now));
    }

    /** The bodies of one to four distinct references, all of this host and unexpired, or an error. */
    method Resolve(refs: seq<ImageRef>, host: string, now: Moment) returns (result: Result<seq<seq<Byte>>, bool>)
      requires Valid() && IsoTime.Valid(now)
      ensures result == Failure(true) <==>
                !(1 <= |refs| <= MAX_REFS) || exists i, j :: 0 <= i < j < |refs| && refs[i] == refs[j]
      ensures result.Success? ==>
                && |result.value| == |refs|
                && forall i :: 0 <= i < |refs| ==>
                     && refs[i] in rows && rows[refs[i]].host == host && Instant(now) < Instant(rows[refs[i]].expires)
                     && result.value[i] == rows[refs[i]].body
      ensures result == Failure(false) ==>
                exists i :: 0 <= i < |refs| && (refs[i] in rows ==> rows[refs[i]].host != host || Instant(rows[refs[i]].expires) <= Instant(now))
    {
      var distinct := forall i, j :: 0 <= i < j < |refs| ==> refs[i] != refs[j];
      if !(1 <= |refs| <= MAX_REFS) || !distinct {
        return Failure(true);
      }
      var bodies := [];
      for k := 0 to |refs|
        invariant |bodies| == k
        invariant forall i :: 0 <= i < k ==>
                    && refs[i] in rows && rows[refs[i]].host == host && Instant(now) < Instant(rows[refs[i]].expires)
                    && bodies[i] == rows[refs[i]].body
      {
        var body := Get(refs[k], now, Some(host));
        if body.Failure? {
          return Failure(false);
        }
        bodies := bodies + [body.value];
      }
      result := Success(bodies);
    }
  }
}
