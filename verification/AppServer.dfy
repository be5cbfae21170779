/** The app-server client as the program runs it: a table of pending requests, one queue of
    size one for each, and a reader thread.  A queue slot is only ever filled when it is empty. */
module AppServer {
  import opened Wrappers
  import opened RpcMachine

  /** A message from the server, by its shape. */
  datatype Incoming =
    | ReplyMessage(id: JsonId, body: string)
    | ServerRequest
    | Notification
    | NoMethod

  class AppServerClient {
    var nextId: int
    var pending: map<int, QueueId>
    /** The queues made so far; a slot is None until its one message is put. */
    var queues: seq<Option<Message>>
    var protocolError: bool
    ghost var trace: seq<World>
    ghost var labels: seq<Label>

    ghost function Now(): World
      reads this
      requires |trace| > 0
    {
      trace[|trace| - 1]
    }

    ghost predicate Valid()
      reads this
    {
      && |trace| > 0 && IsRun(trace, labels)
      && var w := Now();
      && w.nextId == nextId && w.pending == pending && |w.made| == |queues|
      && (forall q :: 0 <= q < |queues| ==> (queues[q].Some? <==> WasPut(w, q)))
      && (forall i :: 0 <= i < |w.puts| && w.puts[i].queue < |queues| ==> queues[w.puts[i].queue] == Some(w.puts[i].message))
    }

    constructor ()
      ensures Valid() && pending == map[] && nextId == 1
    {
      nextId, pending, queues, protocolError := 1, map[], [], false;
      trace, labels := [World(1, map[], [], {}, [], {})], [];
    }

    ghost method Took(w: World, l: Label)
      requires |trace| > 0 && IsRun(trace, labels) && Step(Now(), w, l)
      modifies this`trace, this`labels
      ensures |trace| > 0 && IsRun(trace, labels) && Now() == w && old(trace) <= trace
      ensures TableInv(w) && TokenInv(w)
    {
      trace := trace + [w];
      labels := labels + [l];
      assert forall i :: 0 <= i < |labels| ==> Step(trace[i], trace[i + 1], labels[i]);
      RunKeepsInv(trace, labels, |trace| - 1);
    }

    /** Takes the next id and makes its queue, under the lock. */
    method Register() returns (id: int, queue: QueueId)
      requires Valid()
      modifies this`nextId, this`pending, this`queues, this`trace, this`labels
      ensures Valid() && old(trace) <= trace
      ensures id == old(nextId) && nextId == id + 1 && pending == old(pending)[id := queue]
      ensures queues == old(queues) + [None] && queue == |old(queues)|
      ensures Now().transit == old(Now()).transit && Now().made == old(Now()).made + [id]
    {
      ghost var w := Now();
      RunKeepsInv(trace, labels, |trace| - 1);
      id := nextId;
      nextId := nextId + 1;
      queue := |queues|;
      queues := queues + [None];
      pending := pending[id := queue];
      Took(w.(nextId := nextId, pending := pending, made := w.made + [id]), LRegister);
      assert forall q :: WasPut(Now(), q) <==> WasPut(w, q);
    }

    method GiveUp(id: int)
      requires Valid()
      modifies this`pending, this`trace, this`labels
      ensures Valid() && old(trace) <= trace && pending == old(pending) - {id} && queues == old(queues)
      ensures Now().transit == old(Now()).transit && Now().made == old(Now()).made
    {
      ghost var w := Now();
      pending := pending - {id};
      Took(w.(pending := pending), LTimeOut(id));
      assert forall q :: WasPut(Now(), q) <==> WasPut(w, q);
    }

    /** Puts a message that is in transit; the slot is proved to be empty. */
    method PutOn(queue: QueueId, message: Message)
      requires Valid() && Put(queue, message) in Now().transit
      modifies this`queues, this`trace, this`labels
      ensures Valid() && old(trace) <= trace
      ensures queue < |old(queues)| && old(queues)[queue].None?
      ensures queues == old(queues)[queue := Some(message)]
      ensures Now().transit == old(Now()).transit - {Put(queue, message)} && Now().made == old(Now()).made
    {
      ghost var w := Now();
      RunKeepsInv(trace, labels, |trace| - 1);
      queues := queues[queue := Some(message)];
      Took(w.(transit := w.transit - {Put(queue, message)}, puts := w.puts + [Put(queue, message)]), LDeliver(Put(queue, message)));
      forall q ensures WasPut(Now(), q) <==> WasPut(w, q) || q == queue {
        if WasPut(w, q) {
          var i :| 0 <= i < |w.puts| && w.puts[i].queue == q;
          assert Now().puts[i].queue == q;
        }
        assert Now().puts[|w.puts|].queue == queue;
      }
    }

    /** What other request threads may do between two steps of the reader. */
    method OtherThreads()
      requires Valid()
      modifies this
      ensures Grown(old(trace), old(queues)) && Now().transit == old(Now()).transit && protocolError == old(protocolError)
    {
      var actions: nat := *;
      while actions > 0
        invariant Grown(old(trace), old(queues)) && Now().transit == old(Now()).transit && protocolError == old(protocolError)
      {
        var registers: bool := *;
        if registers {
          var _, _ := Register();
        } else {
          var id: int := *;
          GiveUp(id);
        }
        actions := actions - 1;
      }
    }

    /** The history and the queues have only been added to: no slot is emptied or refilled. */
    ghost predicate Grown(before: seq<World>, slots: seq<Option<Message>>)
      reads this
      requires |before| > 0
    {
      && Valid() && before <= trace
      && before[|before| - 1].made <= Now().made
      && |slots| <= |queues|
      && forall q :: 0 <= q < |slots| && slots[q].Some? ==> queues[q] == slots[q]
    }

    /** Closes the channel: every pending request is taken off the table at once and told. */
    method SetProtocolError()
      requires Valid()
      modifies this
      ensures Grown(old(trace), old(queues)) && protocolError
      ensures forall k :: k in old(pending) && old(pending)[k] < |old(queues)| ==> queues[old(pending)[k]] == Some(Closed)
    {
      protocolError := true;
      var told := TakeAll();
      Tell(told);
    }

    method TakeAll() returns (told: set<QueueId>)
      requires Valid()
      modifies this`pending, this`trace, this`labels
      ensures Grown(old(trace), old(queues)) && pending == map[]
      ensures told == set k | k in old(pending) :: old(pending)[k]
      ensures forall q :: q in told ==> Put(q, Closed) in Now().transit
    {
      ghost var w := Now();
      told := set k | k in pending :: pending[k];
      pending := map[];
      Took(w.(pending := map[], transit := w.transit + set k | k in w.pending :: Put(w.pending[k], Closed)), LClose);
      assert forall q :: WasPut(Now(), q) <==> WasPut(w, q);
    }

    method Tell(queueIds: set<QueueId>)
      requires Valid() && forall q :: q in queueIds ==> Put(q, Closed) in Now().transit
      modifies this
      ensures Grown(old(trace), old(queues)) && protocolError == old(protocolError)
      ensures forall q :: q in queueIds && q < |old(queues)| ==> queues[q] == Some(Closed)
    {
      var left := queueIds;
      while left != {}
        invariant left <= queueIds && Grown(old(trace), old(queues)) && protocolError == old(protocolError)
        invariant forall q :: q in left ==> Put(q, Closed) in Now().transit
        invariant forall q :: q in queueIds - left && q < |old(queues)| ==> queues[q] == Some(Closed)
        decreases left
      {
        var q :| q in left;
        OtherThreads();
        PutOn(q, Closed);
        left := left - {q};
      }
    }

    /** One message from the server. */
    method HandleMessage(message: Incoming)
      requires Valid()
      modifies this
      ensures Grown(old(trace), old(queues))
      ensures message.ReplyMessage? && Key(message.id).Some? && Key(message.id).value in old(pending) ==>
                var q := old(pending)[Key(message.id).value];
                q < |queues| && queues[q] == Some(Reply(message.id, message.body))
      ensures message.NoMethod? || (message.ReplyMessage? && (Key(message.id).None? || Key(message.id).value !in old(pending))) ==>
                protocolError
                && forall k :: k in old(pending) && old(pending)[k] < |old(queues)| ==> queues[old(pending)[k]] == Some(Closed)
      ensures message.ReplyMessage? && Key(message.id).Some? && Key(message.id).value in old(pending) ==>
                protocolError == old(protocolError)
      ensures message.ServerRequest? || message.Notification? ==>
                protocolError == old(protocolError) && pending == old(pending) && queues == old(queues) && trace == old(trace)
    {
      if message.ReplyMessage? {
        var key := Key(message.id);
        if key.None? || key.value !in pending {
          SetProtocolError();
          return;
        }
        ghost var w := Now();
        RunKeepsInv(trace, labels, |trace| - 1);
        var q := pending[key.value];
        pending := pending - {key.value};
        Took(w.(pending := pending, transit := w.transit + {Put(q, Reply(message.id, message.body))}), LTakeReply(message.id, message.body));
        assert forall k :: WasPut(Now(), k) <==> WasPut(w, k);
        OtherThreads();
        PutOn(q, Reply(message.id, message.body));
      } else if message.NoMethod? {
        SetProtocolError();
      }
    }

    /** A reply to the request of this number. */
    predicate Answers(message: Incoming, id: int) {
      message.ReplyMessage? && Key(message.id) == Some(id)
    }

    /** Messages from the server, while this request is under way. */
    method Read(incoming: seq<Incoming>, ghost id: int, ghost queue: QueueId)
      requires Valid() && queue < |queues| && queue < |Now().made| && Now().made[queue] == id
      modifies this
      ensures Grown(old(trace), old(queues))
      ensures queue < |queues| && queue < |Now().made| && Now().made[queue] == id
      ensures incoming == [] ==> pending == old(pending)
      ensures incoming != [] && Answers(incoming[0], id) && id in old(pending) && old(pending)[id] == queue ==>
                queues[queue] == Some(Reply(incoming[0].id, incoming[0].body))
    {
      var i := 0;
      while i < |incoming|
        invariant 0 <= i <= |incoming|
        invariant Grown(old(trace), old(queues))
        invariant queue < |queues| && queue < |Now().made| && Now().made[queue] == id
        invariant i == 0 ==> pending == old(pending)
        invariant i > 0 && Answers(incoming[0], id) && id in old(pending) && old(pending)[id] == queue ==>
                    queues[queue] == Some(Reply(incoming[0].id, incoming[0].body))
      {
        ghost var made := Now().made;
        HandleMessage(incoming[i]);
        assert made <= Now().made;
        i := i + 1;
      }
    }

    /** One request: it returns the message of its own queue, or gives the id up.  The reader may
        close the channel, or even find a reply, before the message is sent; when sending fails the
        entry is left as the reader left it, and nobody reads its queue. */
    method Request(early: seq<Incoming>, sent: bool, incoming: seq<Incoming>) returns (id: int, answer: Option<Message>)
      requires Valid()
      modifies this
      ensures Grown(old(trace), old(queues)) && id == old(nextId)
      ensures answer.Some? && answer.value.Reply? ==> sent && Key(answer.value.id) == Some(id)
      ensures !sent ==> answer.None? && (early == [] ==> id in pending)
      ensures sent && answer.None? ==> id !in pending
      ensures |old(queues)| < |queues| && (sent ==> answer == queues[|old(queues)|])
      ensures sent && early == [] && incoming != [] && incoming[0].ReplyMessage? && Key(incoming[0].id) == Some(old(nextId)) ==>
                answer == Some(Reply(incoming[0].id, incoming[0].body))
    {
      var queue: QueueId;
      id, queue := Register();
      Read(early, id, queue);
      if !sent {
        return id, None;
      }
      Read(incoming, id, queue);
      RunKeepsInv(trace, labels, |trace| - 1);
      answer := queues[queue];
      if answer.None? {
        GiveUp(id);
      } else {
        assert WasPut(Now(), queue);
      }
    }
  }
}
