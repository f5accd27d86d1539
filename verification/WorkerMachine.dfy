/** zero/db/mysql_worker_pool.cc as a state machine: N workers, any number of submitters and stoppers.
    One event is one section under `m_mutex`, or one thing a worker does without it. */
module WorkerMachine {

  /** Accepted tasks are numbered in the order `submit` accepted them. */
  type Task = nat

  datatype Worker =
    | AtWait
    | Running(task: Task)
    | Ran(task: Task)          // executed, m_pending not decremented yet
    | Calling(task: Task)      // m_pending decremented, callback still to come
    | Exited

  /** `taken` is the order in which tasks were dequeued; `ran` and `called` count executions and
      callbacks; `abandoned` records that some stop(false) was called. */
  datatype State = State(
    queue: seq<Task>, accepted: nat, running: bool, waitFinish: bool, pending: int, workers: seq<Worker>,
    taken: seq<Task>, ran: multiset<Task>, called: multiset<Task>, done: set<Task>, abandoned: bool)

  datatype Event =
    | Submit
    | Stop(wait: bool)
    | Take(worker: nat)
    | Exit(worker: nat)
    | Execute(worker: nat)
    | Decrement(worker: nat)
    | Callback(worker: nat)

  predicate Enabled(s: State, e: Event) {
    match e
    case Submit => true
    case Stop(_) => true
    case Take(w) => w < |s.workers| && s.workers[w].AtWait? && s.queue != [] && (s.running || s.waitFinish)
    case Exit(w) => w < |s.workers| && s.workers[w].AtWait? && !s.running && (!s.waitFinish || s.queue == [])
    case Execute(w) => w < |s.workers| && s.workers[w].Running?
    case Decrement(w) => w < |s.workers| && s.workers[w].Ran?
    case Callback(w) => w < |s.workers| && s.workers[w].Calling?
  }

  function Set(s: State, w: nat, p: Worker): State
    requires w < |s.workers|
  {
    s.(workers := s.workers[w := p])
  }

  function Apply(s: State, e: Event): State
    requires Enabled(s, e)
  {
    match e
    case Submit =>
      if s.running then s.(queue := s.queue + [s.accepted], accepted := s.accepted + 1, pending := s.pending + 1)
      else s
    case Stop(wait) => s.(running := false, waitFinish := wait, abandoned := s.abandoned || !wait)
    case Take(w) => Set(s, w, Running(s.queue[0])).(queue := s.queue[1..], taken := s.taken + [s.queue[0]])
    case Exit(w) => Set(s, w, Exited)
    case Execute(w) => Set(s, w, Ran(s.workers[w].task)).(ran := s.ran + multiset{s.workers[w].task})
    case Decrement(w) => Set(s, w, Calling(s.workers[w].task)).(pending := s.pending - 1)
    case Callback(w) =>
      var k := s.workers[w].task;
      Set(s, w, AtWait).(called := s.called + multiset{k}, done := s.done + {k})
  }

  function Init(n: nat): State {
    State([], 0, true, true, 0, seq(n, _ => AtWait), [], multiset{}, multiset{}, {}, false)
  }

  datatype Run = End | Then(event: Event, rest: Run)

  predicate Possible(s: State, r: Run)
    decreases r
  {
    r.Then? ==> Enabled(s, r.event) && Possible(Apply(s, r.event), r.rest)
  }

  function Final(s: State, r: Run): State
    requires Possible(s, r)
    decreases r
  {
    if r.End? then s else Final(Apply(s, r.event), r.rest)
  }

  predicate Busy(p: Worker) {
    p.Running? || p.Ran? || p.Calling?
  }

  /** Workers busy with task `k`; those of them that have executed it; workers `m_pending` counts. */
  function BusyWith(ws: seq<Worker>, k: Task): nat {
    if ws == [] then 0
    else BusyWith(ws[..|ws| - 1], k) + var p := ws[|ws| - 1]; if Busy(p) && p.task == k then 1 else 0
  }

  function ExecutedBy(ws: seq<Worker>, k: Task): nat {
    if ws == [] then 0
    else ExecutedBy(ws[..|ws| - 1], k) + var p := ws[|ws| - 1]; if (p.Ran? || p.Calling?) && p.task == k then 1 else 0
  }

  function Counted(ws: seq<Worker>): nat {
    if ws == [] then 0
    else Counted(ws[..|ws| - 1]) + var p := ws[|ws| - 1]; if p.Running? || p.Ran? then 1 else 0
  }

  lemma {:induction false} WorkersUpdate(ws: seq<Worker>, w: nat, p: Worker, k: Task)
    requires w < |ws|
    ensures BusyWith(ws[w := p], k) == BusyWith(ws, k)
            - (if Busy(ws[w]) && ws[w].task == k then 1 else 0) + (if Busy(p) && p.task == k then 1 else 0)
    ensures ExecutedBy(ws[w := p], k) == ExecutedBy(ws, k)
            - (if (ws[w].Ran? || ws[w].Calling?) && ws[w].task == k then 1 else 0)
            + (if (p.Ran? || p.Calling?) && p.task == k then 1 else 0)
    ensures Counted(ws[w := p]) == Counted(ws)
            - (if ws[w].Running? || ws[w].Ran? then 1 else 0) + (if p.Running? || p.Ran? then 1 else 0)
  {
    var front, after := ws[..|ws| - 1], ws[w := p];
    if w == |ws| - 1 {
      assert after[..|ws| - 1] == front;
    } else {
      WorkersUpdate(front, w, p, k);
      assert after[..|ws| - 1] == front[w := p];
    }
  }

  /** The tasks 0, 1, ..., n - 1. */
  function UpTo(n: nat): (s: seq<Task>)
    ensures |s| == n && forall i | 0 <= i < n :: s[i] == i
  {
    if n == 0 then [] else UpTo(n - 1) + [n - 1]
  }

  /** First in, first out: what was dequeued, then what is queued, is everything accepted in order. */
  predicate Fifo(s: State) {
    s.taken + s.queue == UpTo(s.accepted)
  }

  /** Where task `k` is: not yet dequeued, with a worker, or done. */
  predicate Placed(s: State, k: Task) {
    && BusyWith(s.workers, k) + (if k in s.done then 1 else 0) == (if k < |s.taken| then 1 else 0)
    && s.ran[k] == ExecutedBy(s.workers, k) + (if k in s.done then 1 else 0)
    && s.called[k] == (if k in s.done then 1 else 0)
  }

  /** Without a stop(false), a worker leaves only a stopped pool with nothing queued. */
  predicate Orderly(s: State) {
    !s.abandoned ==>
      s.waitFinish && forall w | 0 <= w < |s.workers| && s.workers[w].Exited? :: !s.running && s.queue == []
  }

  ghost predicate Inv(s: State) {
    && Fifo(s)
    && (forall k: Task :: Placed(s, k))
    && s.pending == |s.queue| + Counted(s.workers)
    && Orderly(s)
  }

  function WorkerOf(e: Event): nat
    requires !e.Submit? && !e.Stop?
  {
    match e
    case Take(w) => w
    case Exit(w) => w
    case Execute(w) => w
    case Decrement(w) => w
    case Callback(w) => w
  }

  lemma PlacedKept(s: State, e: Event, k: Task)
    requires Enabled(s, e) && Fifo(s) && Placed(s, k)
    ensures Placed(Apply(s, e), k)
    ensures Counted(Apply(s, e).workers) == Counted(s.workers)
            + (if e.Take? then 1 else 0) - (if e.Decrement? then 1 else 0)
  {
    if !e.Submit? && !e.Stop? {
      var w := WorkerOf(e);
      WorkersUpdate(s.workers, w, Apply(s, e).workers[w], k);
      if e.Take? {
        assert s.queue[0] == (s.taken + s.queue)[|s.taken|] == |s.taken|;
      }
    }
  }

  lemma FifoKept(s: State, e: Event)
    requires Enabled(s, e) && Fifo(s)
    ensures Fifo(Apply(s, e))
  {
    var after := Apply(s, e);
    if e.Take? {
      assert s.queue == [s.queue[0]] + s.queue[1..];
      assert after.taken + after.queue == s.taken + s.queue;
    } else if e.Submit? && s.running {
      assert after.taken + after.queue == s.taken + s.queue + [s.accepted];
    }
  }

  lemma OrderlyKept(s: State, e: Event)
    requires Enabled(s, e) && Orderly(s)
    ensures Orderly(Apply(s, e))
  {
  }

  lemma InvKept(s: State, e: Event)
    requires Inv(s) && Enabled(s, e)
    ensures Inv(Apply(s, e))
  {
    FifoKept(s, e);
    OrderlyKept(s, e);
    PlacedKept(s, e, 0);
    forall k: Task
      ensures Placed(Apply(s, e), k)
    {
      PlacedKept(s, e, k);
    }
  }

  lemma {:induction false} RunInv(s: State, r: Run)
    requires Inv(s) && Possible(s, r)
    ensures Inv(Final(s, r))
    decreases r
  {
    if r.Then? {
      InvKept(s, r.event);
      RunInv(Apply(s, r.event), r.rest);
    }
  }

  lemma {:induction false} NobodyBusy(ws: seq<Worker>, k: Task)
    requires forall w | 0 <= w < |ws| :: !Busy(ws[w])
    ensures BusyWith(ws, k) == ExecutedBy(ws, k) == Counted(ws) == 0
  {
    if ws != [] {
      NobodyBusy(ws[..|ws| - 1], k);
    }
  }

  lemma InitInv(n: nat)
    ensures Inv(Init(n))
  {
    var s := Init(n);
    NobodyBusy(s.workers, 0);
    forall k: Task
      ensures Placed(s, k)
    {
      NobodyBusy(s.workers, k);
    }
  }

  lemma ExecutedAreBusy(ws: seq<Worker>, k: Task)
    ensures ExecutedBy(ws, k) <= BusyWith(ws, k)
  {
  }

  /** In every interleaving: tasks are dequeued in the order they were accepted, none runs twice or
      before it was dequeued, no callback comes before its task has run, and the pending count is the
      number queued plus the number in flight. */
  lemma EveryInterleaving(n: nat, r: Run)
    requires Possible(Init(n), r)
    ensures var s := Final(Init(n), r);
            && s.taken + s.queue == UpTo(s.accepted)
            && (forall k: Task :: s.called[k] <= s.ran[k] <= 1 && (s.ran[k] == 1 ==> k < |s.taken|))
            && s.pending == |s.queue| + Counted(s.workers)
  {
    InitInv(n);
    RunInv(Init(n), r);
    var s := Final(Init(n), r);
    forall k: Task
      ensures s.called[k] <= s.ran[k] <= 1 && (s.ran[k] == 1 ==> k < |s.taken|)
    {
      assert Placed(s, k);
      ExecutedAreBusy(s.workers, k);
    }
  }

  predicate AllExited(s: State) {
    forall w | 0 <= w < |s.workers| :: s.workers[w].Exited?
  }

  /** What stop() leaves behind when it returns, whichever way it was called: exactly the dequeued
      tasks have run and been called back, once each, and the rest are still counted as pending. */
  lemma AfterJoin(s: State)
    requires Inv(s) && AllExited(s)
    ensures forall k: Task :: s.ran[k] == s.called[k] == if k < |s.taken| then 1 else 0
    ensures s.pending == |s.queue| == s.accepted - |s.taken|
  {
    NobodyBusy(s.workers, 0);
    forall k: Task
      ensures s.ran[k] == s.called[k] == if k < |s.taken| then 1 else 0
    {
      assert Placed(s, k);
      NobodyBusy(s.workers, k);
    }
  }

  /** No stop(false) in the run. */
  predicate Patient(r: Run) {
    r.Then? ==> r.event != Stop(false) && Patient(r.rest)
  }

  lemma {:induction false} PatientNeverAbandons(s: State, r: Run)
    requires Possible(s, r) && Patient(r) && !s.abandoned
    ensures !Final(s, r).abandoned
    decreases r
  {
    if r.Then? {
      PatientNeverAbandons(Apply(s, r.event), r.rest);
    }
  }

  /** When stop(true) returns and nobody called stop(false), the queue is empty and every accepted task
      has run exactly once. */
  lemma StopTrueFinishesEverything(n: nat, r: Run)
    requires n > 0 && Possible(Init(n), r) && Patient(r) && AllExited(Final(Init(n), r))
    ensures var s := Final(Init(n), r);
            && s.queue == [] && s.pending == 0
            && (forall k: Task :: s.ran[k] == s.called[k] == if k < s.accepted then 1 else 0)
  {
    InitInv(n);
    RunInv(Init(n), r);
    PatientNeverAbandons(Init(n), r);
    KeepsWorkers(Init(n), r);
    var s := Final(Init(n), r);
    assert s.workers[0].Exited?;
    AfterJoin(s);
  }

  lemma {:induction false} KeepsWorkers(s: State, r: Run)
    requires Possible(s, r)
    ensures |Final(s, r).workers| == |s.workers|
    decreases r
  {
    if r.Then? {
      KeepsWorkers(Apply(s, r.event), r.rest);
    }
  }

  /** With a stop(false) the promise fails: a task is accepted, the pool stops, and it never runs. */
  lemma StopFalseAbandons() returns (r: Run)
    ensures Possible(Init(1), r) && AllExited(Final(Init(1), r))
    ensures var s := Final(Init(1), r); s.accepted == 1 && s.ran[0] == 0 && s.pending == 1
  {
    var s0 := Init(1);
    var s1 := Apply(s0, Submit);
    var s2 := Apply(s1, Stop(false));
    var s3 := Apply(s2, Exit(0));
    var r1 := Then(Exit(0), End);
    assert Possible(s2, r1) && Final(s2, r1) == Final(s3, End) == s3;
    var r2 := Then(Stop(false), r1);
    assert Possible(s1, r2) && Final(s1, r2) == s3;
    r := Then(Submit, r2);
  }

  /** Once stopped, nothing more is accepted. */
  lemma {:induction false} StoppedAcceptsNothing(s: State, r: Run)
    requires Possible(s, r) && !s.running
    ensures Final(s, r).accepted == s.accepted && !Final(s, r).running
    decreases r
  {
    if r.Then? {
      StoppedAcceptsNothing(Apply(s, r.event), r.rest);
    }
  }
}
