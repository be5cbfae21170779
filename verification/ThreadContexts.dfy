/** Which threads the app-server process has loaded, with which developer context, and which
    of them may be forked. */
module ThreadContexts {
  import opened Wrappers

  type ThreadId = string
  type Fingerprint = string

  /** What has happened to the tables since the client was made.  A load carries the fingerprint of
      the instructions that were sent and the one that was recorded; they are read at two times. */
  datatype Event =
    | Cleared
    | Started(id: ThreadId, sent: Fingerprint, recorded: Fingerprint)
    | Resumed(id: ThreadId, sent: Fingerprint, recorded: Fingerprint)
    | Forked(from: ThreadId, id: ThreadId, sent: Fingerprint, recorded: Fingerprint)
    | Turned(id: ThreadId)

  datatype Tables = Tables(loaded: map<ThreadId, Fingerprint>, forkable: set<ThreadId>)

  function Apply(t: Tables, e: Event): Tables {
    match e
    case Cleared => Tables(map[], {})
    case Started(id, _, recorded) => Tables(t.loaded[id := recorded], t.forkable - {id})
    case Resumed(id, _, recorded) => Tables(t.loaded[id := recorded], t.forkable + {id})
    case Forked(_, id, _, recorded) => Tables(t.loaded[id := recorded], t.forkable + {id})
    case Turned(id) => t.(forkable := t.forkable + {id})
  }

  function After(events: seq<Event>): Tables {
    if events == [] then Tables(map[], {}) else Apply(After(events[..|events| - 1]), events[|events| - 1])
  }

  lemma AfterNext(events: seq<Event>, e: Event)
    ensures After(events + [e]) == Apply(After(events), e)
  {
    assert (events + [e])[..|events|] == events;
  }

  // ---------------------------------------------------------------- what the tables mean

  /** Something that makes the thread forkable. */
  predicate Uses(e: Event, id: ThreadId) {
    (e.Resumed? || e.Forked? || e.Turned?) && e.id == id
  }

  /** Something after which the thread counts as unused again. */
  predicate Forgets(e: Event, id: ThreadId) {
    e.Cleared? || (e.Started? && e.id == id)
  }

  predicate Loads(e: Event, id: ThreadId) {
    (e.Started? || e.Resumed? || e.Forked?) && e.id == id
  }

  ghost predicate UsedSince(events: seq<Event>, j: nat, id: ThreadId) {
    j < |events| && Uses(events[j], id) && forall k :: j < k < |events| ==> !Forgets(events[k], id)
  }

  /** The load of the thread that still stands. */
  ghost predicate LastLoad(events: seq<Event>, j: nat, id: ThreadId) {
    j < |events| && Loads(events[j], id) && forall k :: j < k < |events| ==> !events[k].Cleared? && !Loads(events[k], id)
  }

  lemma UsedBefore(init: seq<Event>, e: Event, j: nat, id: ThreadId)
    requires !Uses(e, id) && !Forgets(e, id)
    ensures UsedSince(init + [e], j, id) <==> UsedSince(init, j, id)
  {
    var events := init + [e];
    assert forall k :: 0 <= k < |init| ==> events[k] == init[k];
    assert UsedSince(events, j, id) ==> j < |init|;
  }

  /** A thread is forkable exactly when it was resumed, produced by a fork or had a successful turn
      recorded after the last clearing of the tables and after the last time it was started anew. */
  lemma {:induction false} ForkableMeansUsed(events: seq<Event>, id: ThreadId)
    ensures id in After(events).forkable <==> exists j: nat :: UsedSince(events, j, id)
  {
    if events == [] {
    } else {
      var init, e := events[..|events| - 1], events[|events| - 1];
      assert events == init + [e];
      ForkableMeansUsed(init, id);
      if Uses(e, id) {
        assert UsedSince(events, |init|, id);
      } else if Forgets(e, id) {
        assert events[|init|] == e;
      } else {
        forall j: nat ensures UsedSince(events, j, id) <==> UsedSince(init, j, id) {
          UsedBefore(init, e, j, id);
        }
      }
    }
  }

  lemma LoadedBefore(init: seq<Event>, e: Event, j: nat, id: ThreadId)
    requires !Loads(e, id) && !e.Cleared?
    ensures LastLoad(init + [e], j, id) <==> LastLoad(init, j, id)
  {
    var events := init + [e];
    assert forall k :: 0 <= k < |init| ==> events[k] == init[k];
    assert LastLoad(events, j, id) ==> j < |init|;
  }

  /** A thread is in the table exactly when a load of it still stands, and the table holds what
      that load recorded. */
  lemma {:induction false} LoadedMeansLoadedHere(events: seq<Event>, id: ThreadId)
    ensures id in After(events).loaded <==> exists j: nat :: LastLoad(events, j, id)
    ensures forall j: nat :: LastLoad(events, j, id) ==> id in After(events).loaded && After(events).loaded[id] == events[j].recorded
  {
    if events == [] {
    } else {
      var init, e := events[..|events| - 1], events[|events| - 1];
      assert events == init + [e];
      LoadedMeansLoadedHere(init, id);
      if Loads(e, id) {
        assert LastLoad(events, |init|, id);
      } else if e.Cleared? {
        assert events[|init|] == e;
      } else {
        forall j: nat ensures LastLoad(events, j, id) <==> LastLoad(init, j, id) {
          LoadedBefore(init, e, j, id);
        }
      }
    }
  }

  // ---------------------------------------------------------------- what is asked for

  datatype Asked = Nothing | ThreadStart | ThreadResume | ThreadFork

  /** What `resume_thread` asks the server for. */
  function Ask(t: Tables, id: ThreadId, current: Fingerprint): Asked {
    if id !in t.loaded then ThreadResume
    else if t.loaded[id] == current then Nothing
    else if id in t.forkable then ThreadFork
    else ThreadStart
  }

  /** A thread is left as it is exactly when the server has it under the current context, for every
      context that may become current, if and only if the two reads of its load agreed. */
  lemma LeftAloneIsTruthful(events: seq<Event>, id: ThreadId, j: nat)
    requires LastLoad(events, j, id)
    ensures (forall current :: Ask(After(events), id, current) == Nothing <==> events[j].sent == current)
            <==> events[j].sent == events[j].recorded
  {
    LoadedMeansLoadedHere(events, id);
    assert Ask(After(events), id, events[j].recorded) == Nothing;
  }

  /** A fork is asked for exactly when a load of the thread stands that recorded another context and
      the thread was used since; so if the reads of that load agreed, the server has the thread
      under another context. */
  lemma ForkIsJustified(events: seq<Event>, id: ThreadId, current: Fingerprint)
    ensures Ask(After(events), id, current) == ThreadFork <==>
              && (exists j: nat :: LastLoad(events, j, id) && events[j].recorded != current)
              && (exists j: nat :: UsedSince(events, j, id))
    ensures Ask(After(events), id, current) == ThreadFork ==>
              exists j: nat :: LastLoad(events, j, id) && (events[j].sent == events[j].recorded ==> events[j].sent != current)
  {
    LoadedMeansLoadedHere(events, id);
    ForkableMeansUsed(events, id);
  }

  /** A thread is resumed exactly when no load of it stands, and replaced by a new one exactly when a
      load stands that recorded another context and the thread was not used since. */
  lemma OtherwiseResumedOrReplaced(events: seq<Event>, id: ThreadId, current: Fingerprint)
    ensures Ask(After(events), id, current) == ThreadResume <==> !exists j: nat :: LastLoad(events, j, id)
    ensures Ask(After(events), id, current) == ThreadStart <==>
              && (exists j: nat :: LastLoad(events, j, id) && events[j].recorded != current)
              && !exists j: nat :: UsedSince(events, j, id)
    ensures Ask(After(events), id, current) == Nothing <==>
              exists j: nat :: LastLoad(events, j, id) && events[j].recorded == current
  {
    LoadedMeansLoadedHere(events, id);
    ForkableMeansUsed(events, id);
  }

  /** Where the reads disagree the tables mislead: a thread resumed with context `b` but recorded
      under `a` is forked under `b`, which it has, and left alone under `a`, which it has not. */
  lemma DisagreeingReadsMislead(id: ThreadId, a: Fingerprint, b: Fingerprint)
    requires a != b
    ensures var events := [Resumed(id, b, a)];
            && LastLoad(events, 0, id) && events[0].sent == b
            && Ask(After(events), id, b) == ThreadFork
            && Ask(After(events), id, a) == Nothing
  {
    var events := [Resumed(id, b, a)];
    assert events == [] + [Resumed(id, b, a)];
    AfterNext([], Resumed(id, b, a));
  }

  datatype ThreadError = ThreadUnavailable | RequestError | TurnStateUnknown

  class ContextKeeper {
    /** The fingerprint of an instruction text. */
    const digest: string -> Fingerprint
    var instructions: string
    var loaded: map<ThreadId, Fingerprint>
    var forkable: set<ThreadId>
    ghost var history: seq<Event>

    ghost predicate Valid()
      reads this
    {
      After(history) == Tables(loaded, forkable)
    }

    constructor (digest: string -> Fingerprint, instructions: string)
      ensures Valid() && history == []
      ensures this.digest == digest && this.instructions == instructions
    {
      this.digest, this.instructions := digest, instructions;
      loaded, forkable, history := map[], {}, [];
    }

    ghost method Record(e: Event)
      modifies this`history
      ensures history == old(history) + [e] && After(history) == Apply(After(old(history)), e)
    {
      AfterNext(history, e);
      history := history + [e];
    }

    /** Process start and stop forget every thread. */
    method Clear()
      requires Valid()
      modifies this`loaded, this`forkable, this`history
      ensures Valid() && history == old(history) + [Cleared] && loaded == map[] && forkable == {}
    {
      Record(Cleared);
      loaded, forkable := map[], {};
    }

    /** Another thread may configure new instructions at any time. */
    method MayReconfigure(next: Option<string>)
      modifies this`instructions
      ensures instructions == next.GetOr(old(instructions))
    {
      if next.Some? {
        instructions := next.value;
      }
    }

    /** Asks for a new thread; its context is fingerprinted after the reply. */
    method StartThread(reply: Option<ThreadId>, meanwhile: Option<string>) returns (result: Result<ThreadId, ThreadError>, sent: string)
      requires Valid()
      modifies this
      ensures Valid() && sent == old(instructions) && instructions == meanwhile.GetOr(old(instructions))
      ensures result == if reply.None? then Failure(RequestError)
                        else if reply.value == "" then Failure(ThreadUnavailable)
                        else Success(reply.value)
      ensures history == old(history)
                         + if result.Success? then [Started(result.value, digest(sent), digest(instructions))] else []
    {
      sent := instructions;
      MayReconfigure(meanwhile);
      if reply.None? {
        return Failure(RequestError), sent;
      }
      if reply.value == "" {
        return Failure(ThreadUnavailable), sent;
      }
      var context := digest(instructions);
      Record(Started(reply.value, digest(sent), context));
      loaded := loaded[reply.value := context];
      forkable := forkable - {reply.value};
      result := Success(reply.value);
    }

    /** Makes a thread usable under the current instructions: as it is, resumed, forked or new.
        `meanwhile` are instructions another thread may configure before and after the request is built. */
    method ResumeThread(id: ThreadId, reply: Option<ThreadId>, meanwhile: (Option<string>, Option<string>))
      returns (result: Result<ThreadId, ThreadError>, asked: Asked, sent: string)
      requires Valid()
      modifies this
      ensures Valid() && instructions == meanwhile.1.GetOr(meanwhile.0.GetOr(old(instructions)))
      ensures asked == Ask(After(old(history)), id, digest(old(instructions)))
      ensures asked == ThreadResume <==> id !in old(loaded)
      ensures asked == Nothing <==> id in old(loaded) && old(loaded)[id] == digest(old(instructions))
      ensures asked == ThreadFork <==> id in old(loaded) && old(loaded)[id] != digest(old(instructions)) && id in old(forkable)
      ensures asked == ThreadStart <==> id in old(loaded) && old(loaded)[id] != digest(old(instructions)) && id !in old(forkable)
      ensures id !in old(loaded) && result.Success? ==> reply == Some(id) && result.value == id
      ensures asked != Nothing ==> sent == meanwhile.0.GetOr(old(instructions))
      ensures result == if asked == Nothing then Success(id)
                        else if reply.None? then Failure(RequestError)
                        else if reply.value == "" || (asked == ThreadResume && reply.value != id) || (asked == ThreadFork && reply.value == id)
                        then Failure(ThreadUnavailable)
                        else Success(reply.value)
      ensures history == old(history)
                         + (if result.Failure? || asked == Nothing then []
                            else if asked == ThreadStart then [Started(result.value, digest(sent), digest(instructions))]
                            else if asked == ThreadResume then [Resumed(id, digest(sent), digest(old(instructions)))]
                            else [Forked(id, result.value, digest(sent), digest(old(instructions)))])
      ensures result.Success? ==>
                && result.value in loaded
                && (loaded[result.value] == digest(instructions) <==> asked == ThreadStart || digest(instructions) == digest(old(instructions)))
      ensures result.Success? && (asked == ThreadResume || asked == ThreadFork) ==> result.value in forkable
    {
      sent := "";
      var fingerprint := digest(instructions);
      var known := if id in loaded then Some(loaded[id]) else None;
      MayReconfigure(meanwhile.0);
      if known == Some(fingerprint) {
        MayReconfigure(meanwhile.1);
        return Success(id), Nothing, sent;
      }
      if known.Some? && id !in forkable {
        result, sent := StartThread(reply, meanwhile.1);
        return result, ThreadStart, sent;
      }
      asked := if known.None? then ThreadResume else ThreadFork;
      sent := instructions;
      MayReconfigure(meanwhile.1);
      if reply.None? {
        return Failure(RequestError), asked, sent;
      }
      if reply.value == "" || (asked == ThreadResume && reply.value != id) || (asked == ThreadFork && reply.value == id) {
        return Failure(ThreadUnavailable), asked, sent;
      }
      Adopt(id, reply.value, asked, digest(sent), fingerprint);
      result := Success(reply.value);
    }

    /** Notes the thread the server resumed or forked as loaded, in use and under this context. */
    method Adopt(id: ThreadId, thread: ThreadId, asked: Asked, ghost sent: Fingerprint, fingerprint: Fingerprint)
      requires Valid() && (asked == ThreadResume || asked == ThreadFork) && (asked == ThreadResume ==> thread == id)
      modifies this`loaded, this`forkable, this`history
      ensures Valid() && loaded == old(loaded)[thread := fingerprint] && forkable == old(forkable) + {thread}
      ensures history == old(history)
                         + [if asked == ThreadResume then Resumed(id, sent, fingerprint) else Forked(id, thread, sent, fingerprint)]
    {
      Record(if asked == ThreadResume then Resumed(id, sent, fingerprint) else Forked(id, thread, sent, fingerprint));
      loaded := loaded[thread := fingerprint];
      forkable := forkable + {thread};
    }

    /** What other threads may do while no lock is held. */
    method OtherThreads()
      requires Valid()
      modifies this
      ensures Valid() && old(history) <= history
    {
      var actions: nat := *;
      while actions > 0
        invariant Valid() && old(history) <= history
      {
        var next: Option<string>, again: Option<string>, reply: Option<ThreadId>, id: ThreadId := *, *, *, *;
        if {
          case true => Clear();
          case true => MayReconfigure(next);
          case true => var _, _ := StartThread(reply, next);
          case true => var _, _, _ := ResumeThread(id, reply, (next, again));
        }
        actions := actions - 1;
      }
    }

    /** A turn.  The lock is taken only to record a confirmed one, so anything may have happened to
        the tables since it was asked for. */
    method StartTurn(id: ThreadId, turn: Option<string>) returns (result: Result<string, ThreadError>)
      requires Valid()
      modifies this
      ensures Valid() && old(history) <= history
      ensures result == if turn.None? then Failure(RequestError)
                        else if turn.value == "" then Failure(TurnStateUnknown)
                        else Success(turn.value)
      ensures result.Success? ==> |history| > |old(history)| && history[|history| - 1] == Turned(id) && id in forkable
    {
      OtherThreads();
      if turn.None? {
        return Failure(RequestError);
      }
      if turn.value == "" {
        return Failure(TurnStateUnknown);
      }
      Record(Turned(id));
      forkable := forkable + {id};
      result := Success(turn.value);
    }
  }
}
