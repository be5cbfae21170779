/** The error stream: a generator that compares page revisions and waits on a counter.

    A page reads several tables one after another while other threads commit, so a page is
    taken to show every change committed before it was begun, and perhaps later ones. */
module ErrorStream {
  import opened Wrappers

  datatype Pc =
    | Top                                        // outside the lock
    | Counted                                    // lock held: the counter is read, the page is next
    | Paged(revision: string, begun: nat)        // lock held: the page is built
    | Compare(revision: string, begun: nat)      // outside the lock
    | Checking                                   // lock held
    | Waiting

  /** `changes` have been committed, those in `notified` counted and signalled.  The last frame
      that was not a heartbeat showed `previous`; `pageBegun` is what had been committed when the
      page last compared was begun. */
  datatype World = World(changes: nat, notified: set<nat>, sequence: nat,
                         pc: Pc, observed: nat, previous: Option<string>, frames: nat,
                         pageRevision: Option<string>, pageBegun: nat)

  predicate Locked(pc: Pc) {
    pc.Counted? || pc.Paged? || pc.Checking?
  }

  predicate Commit(w: World, w': World) {
    w' == w.(changes := w.changes + 1)
  }

  predicate Notify(w: World, w': World, n: nat) {
    && !Locked(w.pc) && n < w.changes
    && w' == w.(notified := w.notified + {n}, sequence := w.sequence + 1, pc := if w.pc.Waiting? then Top else w.pc)
  }

  predicate Count(w: World, w': World) {
    w.pc.Top? && w' == w.(pc := Counted, observed := w.sequence)
  }

  predicate BuildPage(w: World, w': World, revision: string, later: nat) {
    w.pc.Counted? && w' == w.(pc := Paged(revision, w.changes), changes := w.changes + later)
  }

  predicate Release(w: World, w': World) {
    w.pc.Paged? && w' == w.(pc := Compare(w.pc.revision, w.pc.begun))
  }

  /** A new revision is framed; an old one leads to the wait. */
  predicate Decide(w: World, w': World) {
    && w.pc.Compare?
    && w' == if w.previous != Some(w.pc.revision)
             then w.(pc := Top, previous := Some(w.pc.revision), frames := w.frames + 1,
                     pageRevision := Some(w.pc.revision), pageBegun := w.pc.begun)
             else w.(pc := Checking, pageRevision := Some(w.pc.revision), pageBegun := w.pc.begun)
  }

  /** The counter is compared once more under the lock that the wait then gives up. */
  predicate Check(w: World, w': World) {
    w.pc.Checking? && w' == w.(pc := if w.sequence != w.observed then Top else Waiting)
  }

  predicate Heartbeat(w: World, w': World) {
    w.pc.Waiting? && w' == w.(pc := Top, frames := w.frames + 1)
  }

  datatype Label = LCommit | LNotify(n: nat) | LPage(revision: string, later: nat) | LGenerator

  predicate Step(w: World, w': World, l: Label) {
    match l
    case LCommit => Commit(w, w')
    case LNotify(n) => Notify(w, w', n)
    case LPage(revision, later) => BuildPage(w, w', revision, later)
    case LGenerator => Count(w, w') || Release(w, w') || Decide(w, w') || Check(w, w') || Heartbeat(w, w')
  }

  ghost predicate IsRun(run: seq<World>, labels: seq<Label>) {
    && |run| == |labels| + 1
    && run[0].pc.Top? && run[0].previous.None? && run[0].observed <= run[0].sequence
    && (forall n :: n in run[0].notified ==> n < run[0].changes)
    && forall i :: 0 <= i < |labels| ==> Step(run[i], run[i + 1], labels[i])
  }

  ghost predicate Inv(w: World) {
    && w.observed <= w.sequence
    && (forall n :: n in w.notified ==> n < w.changes)
    && (w.pc.Counted? || w.pc.Paged? ==> w.observed == w.sequence)
    && (w.pc.Paged? || w.pc.Compare? ==> w.observed == w.sequence ==> forall n :: n in w.notified ==> n < w.pc.begun)
    && (w.pc.Checking? || w.pc.Waiting? ==>
          && w.pageRevision.Some? && w.previous == w.pageRevision
          && (w.observed == w.sequence ==> forall n :: n in w.notified ==> n < w.pageBegun))
    && (w.pc.Waiting? ==> w.observed == w.sequence)
  }

  lemma StepKeepsInv(w: World, w': World, l: Label)
    requires Inv(w) && Step(w, w', l)
    ensures Inv(w')
  {
  }

  lemma {:induction false} RunKeepsInv(run: seq<World>, labels: seq<Label>, i: nat)
    requires IsRun(run, labels) && i < |run|
    ensures Inv(run[i])
  {
    if i == 0 {
    } else {
      RunKeepsInv(run, labels, i - 1);
      StepKeepsInv(run[i - 1], run[i], labels[i - 1]);
    }
  }

  /** When the stream waits, its counter is current, and the revision of its last frame is that of
      a page begun after every notified change was committed. */
  lemma NeverSleepsPastAChange(run: seq<World>, labels: seq<Label>, i: nat)
    requires IsRun(run, labels) && i < |run| && run[i].pc.Waiting?
    ensures run[i].observed == run[i].sequence
    ensures run[i].previous.Some? && run[i].previous == run[i].pageRevision
    ensures forall n :: n in run[i].notified ==> n < run[i].pageBegun
  {
    RunKeepsInv(run, labels, i);
  }
}
