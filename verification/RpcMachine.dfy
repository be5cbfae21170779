/** Request and reply correlation of the app-server client, as steps of many threads.

    Every access to the table of pending requests is one step under its lock; a message that
    has been taken off the table is in transit until it is put on its queue. */
module RpcMachine {
  import opened Wrappers

  /** The `id` of a reply as JSON gives it.  Python counts booleans as integers. */
  datatype JsonId = Number(n: int) | Boolean(b: bool) | OtherJson

  datatype Message = Reply(id: JsonId, body: string) | Closed

  type QueueId = nat

  datatype Put = Put(queue: QueueId, message: Message)

  /** `made[q]` is the request that queue `q` was made for. */
  datatype World = World(nextId: int, pending: map<int, QueueId>, made: seq<int>,
                         transit: set<Put>, puts: seq<Put>, taken: set<QueueId>)

  /** The table key a reply is looked up under; `true` is the key 1. */
  function Key(id: JsonId): Option<int> {
    match id
    case Number(n) => Some(n)
    case Boolean(b) => Some(if b then 1 else 0)
    case OtherJson => None
  }

  /** Exactly the whole number n, or a boolean that Python counts as n, is looked up under n. */
  lemma KeyIs(id: JsonId, n: int)
    ensures Key(id) == Some(n) <==> id == Number(n) || (id == Boolean(true) && n == 1) || (id == Boolean(false) && n == 0)
  {
  }

  predicate Init(w: World) {
    w == World(1, map[], [], {}, [], {})
  }

  predicate Register(w: World, w': World) {
    w' == w.(nextId := w.nextId + 1, pending := w.pending[w.nextId := |w.made|], made := w.made + [w.nextId])
  }

  predicate TakeReply(w: World, w': World, id: JsonId, body: string) {
    && Key(id).Some? && Key(id).value in w.pending
    && w' == w.(pending := w.pending - {Key(id).value},
                transit := w.transit + {Put(w.pending[Key(id).value], Reply(id, body))})
  }

  predicate TimeOut(w: World, w': World, id: int) {
    w' == w.(pending := w.pending - {id})
  }

  /** A protocol error closes every pending request at once. */
  predicate Close(w: World, w': World) {
    w' == w.(pending := map[], transit := w.transit + set k | k in w.pending :: Put(w.pending[k], Closed))
  }

  predicate Deliver(w: World, w': World, p: Put) {
    p in w.transit && w' == w.(transit := w.transit - {p}, puts := w.puts + [p])
  }

  predicate Take(w: World, w': World, q: QueueId) {
    (exists i :: 0 <= i < |w.puts| && w.puts[i].queue == q) && q !in w.taken && w' == w.(taken := w.taken + {q})
  }

  datatype Label =
    | LRegister
    | LTakeReply(id: JsonId, body: string)
    | LTimeOut(request: int)
    | LClose
    | LDeliver(put: Put)
    | LTake(queue: QueueId)

  predicate Step(w: World, w': World, l: Label) {
    match l
    case LRegister => Register(w, w')
    case LTakeReply(id, body) => TakeReply(w, w', id, body)
    case LTimeOut(id) => TimeOut(w, w', id)
    case LClose => Close(w, w')
    case LDeliver(p) => Deliver(w, w', p)
    case LTake(q) => Take(w, w', q)
  }

  ghost predicate IsRun(run: seq<World>, labels: seq<Label>) {
    && |run| == |labels| + 1
    && Init(run[0])
    && forall i :: 0 <= i < |labels| ==> Step(run[i], run[i + 1], labels[i])
  }

  // ---------------------------------------------------------------- one message for every queue

  /** The message is one the queue's own request may see. */
  predicate Addressed(w: World, p: Put) {
    && p.queue < |w.made|
    && (p.message.Reply? ==> Key(p.message.id) == Some(w.made[p.queue]))
  }

  predicate IsPending(w: World, q: QueueId) {
    q < |w.made| && w.made[q] in w.pending && w.pending[w.made[q]] == q
  }

  predicate InTransit(w: World, q: QueueId) {
    exists p :: p in w.transit && p.queue == q
  }

  predicate WasPut(w: World, q: QueueId) {
    exists i :: 0 <= i < |w.puts| && w.puts[i].queue == q
  }

  ghost predicate TableInv(w: World) {
    && w.nextId == |w.made| + 1
    && (forall q :: 0 <= q < |w.made| ==> w.made[q] == q + 1)
    && (forall k :: k in w.pending ==> 1 <= k < w.nextId && w.pending[k] == k - 1)
  }

  /** Table, transit and queue exclude each other, and none holds a queue twice. */
  ghost predicate TokenInv(w: World) {
    && (forall p :: p in w.transit ==> Addressed(w, p) && !IsPending(w, p.queue) && !WasPut(w, p.queue))
    && (forall p, r :: p in w.transit && r in w.transit && p.queue == r.queue ==> p == r)
    && (forall i :: 0 <= i < |w.puts| ==> Addressed(w, w.puts[i]) && !IsPending(w, w.puts[i].queue))
    && (forall i, j :: 0 <= i < j < |w.puts| ==> w.puts[i].queue != w.puts[j].queue)
  }

  lemma StepKeepsTable(w: World, w': World, l: Label)
    requires TableInv(w) && Step(w, w', l)
    ensures TableInv(w')
  {
  }

  lemma RegisterKeepsTokens(w: World, w': World)
    requires TableInv(w) && TokenInv(w) && Register(w, w')
    ensures TokenInv(w')
  {
    assert w'.puts == w.puts && w'.transit == w.transit;
    forall q: nat | q < |w.made| && !IsPending(w, q) ensures !IsPending(w', q) {
    }
    assert forall q :: WasPut(w', q) <==> WasPut(w, q);
  }

  lemma TakeReplyKeepsTokens(w: World, w': World, id: JsonId, body: string)
    requires TableInv(w) && TokenInv(w) && TakeReply(w, w', id, body)
    ensures TokenInv(w')
  {
    var q := w.pending[Key(id).value];
    assert IsPending(w, q) && !WasPut(w, q) && !InTransit(w, q);
    assert forall k :: WasPut(w', k) <==> WasPut(w, k);
  }

  lemma CloseKeepsTokens(w: World, w': World)
    requires TableInv(w) && TokenInv(w) && Close(w, w')
    ensures TokenInv(w')
  {
    assert forall k :: WasPut(w', k) <==> WasPut(w, k);
    forall p | p in w'.transit && p !in w.transit ensures IsPending(w, p.queue) && p.message.Closed? {
    }
  }

  lemma DeliverKeepsTokens(w: World, w': World, p: Put)
    requires TableInv(w) && TokenInv(w) && Deliver(w, w', p)
    ensures TokenInv(w')
  {
    forall q ensures WasPut(w', q) <==> WasPut(w, q) || q == p.queue {
      if WasPut(w, q) {
        var i :| 0 <= i < |w.puts| && w.puts[i].queue == q;
        assert w'.puts[i].queue == q;
      }
      if q == p.queue {
        assert w'.puts[|w.puts|].queue == q;
      }
    }
    forall i, j | 0 <= i < j < |w'.puts| ensures w'.puts[i].queue != w'.puts[j].queue {
      assert WasPut(w, w'.puts[i].queue);
    }
  }

  lemma StepKeepsTokens(w: World, w': World, l: Label)
    requires TableInv(w) && TokenInv(w) && Step(w, w', l)
    ensures TokenInv(w')
  {
    match l
    case LRegister => RegisterKeepsTokens(w, w');
    case LTakeReply(id, body) => TakeReplyKeepsTokens(w, w', id, body);
    case LClose => CloseKeepsTokens(w, w');
    case LDeliver(p) => DeliverKeepsTokens(w, w', p);
    case _ =>
      assert forall k :: WasPut(w', k) <==> WasPut(w, k);
      assert forall q :: IsPending(w', q) ==> IsPending(w, q);
  }

  lemma {:induction false} RunKeepsInv(run: seq<World>, labels: seq<Label>, i: nat)
    requires IsRun(run, labels) && i < |run|
    ensures TableInv(run[i]) && TokenInv(run[i])
  {
    if i == 0 {
    } else {
      RunKeepsInv(run, labels, i - 1);
      StepKeepsTable(run[i - 1], run[i], labels[i - 1]);
      StepKeepsTokens(run[i - 1], run[i], labels[i - 1]);
    }
  }

  // ---------------------------------------------------------------- theorems

  /** Request ids never repeat, and neither do queues. */
  lemma IdsNeverRepeat(run: seq<World>, labels: seq<Label>, i: nat, q: QueueId, r: QueueId)
    requires IsRun(run, labels) && i < |run| && q < |run[i].made| && r < |run[i].made|
    ensures run[i].made[q] == run[i].made[r] ==> q == r
    ensures run[i].made[q] < run[i].nextId
  {
    RunKeepsInv(run, labels, i);
  }

  /** Every queue gets at most one message, a reply only if its id names the queue's own
      request, so the reply with number n reaches the queue made for request n alone. */
  lemma RepliesReachTheirRequest(run: seq<World>, labels: seq<Label>, i: nat, a: nat, b: nat)
    requires IsRun(run, labels) && i < |run| && a < |run[i].puts| && b < |run[i].puts|
    ensures run[i].puts[a].queue == run[i].puts[b].queue ==> a == b
    ensures run[i].puts[a].queue < |run[i].made|
    ensures run[i].puts[a].message.Reply? && run[i].puts[a].message.id.Number? ==>
              run[i].made[run[i].puts[a].queue] == run[i].puts[a].message.id.n
    ensures run[i].puts[a].message.Reply? && run[i].puts[a].message.id.Boolean? ==>
              run[i].made[run[i].puts[a].queue] == 1 && run[i].puts[a].message.id.b
  {
    RunKeepsInv(run, labels, i);
  }

  /** A put on a queue of size one never blocks: the queue has never held anything. */
  lemma PutNeverBlocks(run: seq<World>, labels: seq<Label>, i: nat, p: Put)
    requires IsRun(run, labels) && i + 1 < |run| && labels[i] == LDeliver(p)
    ensures !WasPut(run[i], p.queue)
  {
    RunKeepsInv(run, labels, i);
    assert Step(run[i], run[i + 1], labels[i]);
  }
}
