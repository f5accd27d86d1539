/** zero/db/mysql_worker_pool.cc: submit, run and stop as the code has them, with other threads free to
    act wherever the lock is not held. Each performs exactly events of WorkerMachine. */
module WorkerPool {
  import opened WorkerMachine

  ghost predicate Reaches(s: State, s': State) {
    exists r :: Possible(s, r) && Final(s, r) == s'
  }

  lemma ReachesSelf(s: State)
    ensures Reaches(s, s)
  {
    assert Possible(s, End) && Final(s, End) == s;
  }

  lemma {:induction false} Extend(s: State, a: Run, b: Run) returns (r: Run)
    requires Possible(s, a) && Possible(Final(s, a), b)
    ensures Possible(s, r) && Final(s, r) == Final(Final(s, a), b)
    decreases a
  {
    if a.End? {
      r := b;
    } else {
      var rest := Extend(Apply(s, a.event), a.rest, b);
      r := Then(a.event, rest);
    }
  }

  lemma ReachesTransitive(s: State, m: State, s': State)
    requires Reaches(s, m) && Reaches(m, s')
    ensures Reaches(s, s')
  {
    var a :| Possible(s, a) && Final(s, a) == m;
    var b :| Possible(m, b) && Final(m, b) == s';
    var r := Extend(s, a, b);
  }

  lemma ReachesStep(s: State, m: State, e: Event)
    requires Reaches(s, m) && Enabled(m, e)
    ensures Reaches(s, Apply(m, e))
  {
    var after := Apply(m, e);
    assert Possible(after, End) && Final(after, End) == after;
    assert Possible(m, Then(e, End)) && Final(m, Then(e, End)) == after;
    ReachesTransitive(s, m, after);
  }

  predicate IsOwn(e: Event, w: nat) {
    !e.Submit? && !e.Stop? && WorkerOf(e) == w
  }

  /** A run in which worker `w` does nothing. */
  predicate Foreign(r: Run, w: nat) {
    r.Then? ==> !IsOwn(r.event, w) && Foreign(r.rest, w)
  }

  function Length(r: Run): nat {
    if r.End? then 0 else 1 + Length(r.rest)
  }

  /** What other threads cannot do to worker `w`. */
  lemma {:induction false} ForeignRun(s: State, r: Run, w: nat)
    requires Inv(s) && Possible(s, r) && Foreign(r, w)
    ensures var after := Final(s, r);
            && Inv(after) && |after.workers| == |s.workers|
            && (w < |s.workers| ==> after.workers[w] == s.workers[w])
            && |after.queue| <= |s.queue| + Length(r)
            && (!s.running ==> !after.running)
    decreases r
  {
    if r.Then? {
      InvKept(s, r.event);
      ForeignRun(Apply(s, r.event), r.rest, w);
    }
  }

  class MySQLWorkerPool {
    var tasks: seq<Task>
    var running: bool
    var waitFinish: bool
    var pending: int
    /** Stands for the identity of the submitted tasks. */
    var accepted: nat

    ghost var machine: State
    /** How many events of other threads are still to come. */
    ghost var others: nat

    ghost predicate Valid()
      reads this
    {
      && Inv(machine)
      && machine.queue == tasks && machine.running == running && machine.waitFinish == waitFinish
      && machine.pending == pending && machine.accepted == accepted
    }

    ghost predicate At(w: nat, p: Worker, start: State)
      reads this
    {
      Valid() && w < |machine.workers| && machine.workers[w] == p && Reaches(start, machine)
    }

    /** At least one worker is started. */
    constructor (threads: nat, ghost events: nat)
      ensures Valid() && running && waitFinish && tasks == [] && others == events
      ensures machine == Init(if threads == 0 then 1 else threads)
    {
      tasks, running, waitFinish, pending, accepted := [], true, true, 0, 0;
      machine, others := Init(if threads == 0 then 1 else threads), events;
      new;
      InitInv(if threads == 0 then 1 else threads);
    }

    /** Other threads run for a while; worker `w` does not. */
    method Interference(ghost w: nat)
      requires Valid()
      modifies this
      ensures Valid() && |machine.workers| == old(|machine.workers|)
      ensures w < |machine.workers| ==> machine.workers[w] == old(machine.workers[w])
      ensures exists r :: Foreign(r, w) && Possible(old(machine), r) && Final(old(machine), r) == machine
                          && Length(r) + others == old(others)
      ensures Reaches(old(machine), machine)
      ensures |tasks| + others <= old(|tasks| + others)
      ensures !old(running) ==> !running
    {
      assert Foreign(End, w) && Possible(machine, End) && Final(machine, End) == machine && Length(End) == 0;
    }

    method Unlocked(ghost w: nat, ghost start: State)
      requires Valid() && w < |machine.workers| && Reaches(start, machine)
      modifies this
      ensures At(w, old(machine.workers[w]), start)
      ensures |tasks| + others <= old(|tasks| + others)
      ensures !old(running) ==> !running
    {
      ghost var before := machine;
      Interference(w);
      ReachesTransitive(start, before, machine);
    }

    /** An event already performed on the real fields. */
    ghost method Record(e: Event, start: State)
      requires Inv(machine) && Enabled(machine, e) && Reaches(start, machine)
      modifies this`machine
      ensures machine == Apply(old(machine), e) && Inv(machine) && Reaches(start, machine)
    {
      InvKept(machine, e);
      ReachesStep(start, machine, e);
      machine := Apply(machine, e);
    }

    /** submit: accepted while the pool runs, dropped otherwise. */
    method SubmitTask() returns (taken: bool)
      requires Valid()
      modifies this
      ensures Valid() && machine == Apply(old(machine), Submit)
      ensures taken == old(running)
      ensures taken ==> tasks == old(tasks) + [old(accepted)] && pending == old(pending) + 1
      ensures !taken ==> tasks == old(tasks) && pending == old(pending)
    {
      ReachesSelf(machine);
      taken := running;
      if running {
        tasks := tasks + [accepted];
        accepted := accepted + 1;
        pending := pending + 1;
      }
      Record(Submit, machine);
    }

    /** One turn of the worker loop with a task in the queue: dequeue it, run it, count it, call back. */
    method RunOne(ghost w: nat, ghost start: State)
      requires At(w, AtWait, start) && tasks != [] && (running || waitFinish)
      modifies this
      ensures At(w, AtWait, start)
      ensures |tasks| + others < old(|tasks| + others)
    {
      var k := tasks[0];
      Dequeue(w, start);
      Unlocked(w, start);
      Outside(Execute(w), w, Ran(k), start);
      Unlocked(w, start);
      Account(w, k, start);
      Unlocked(w, start);
      Outside(Callback(w), w, AtWait, start);
    }

    /** What a worker does without the lock: execute its task or call back. */
    ghost method Outside(e: Event, w: nat, next: Worker, start: State)
      requires Valid() && Reaches(start, machine) && (e.Execute? || e.Callback?) && Enabled(machine, e)
      requires w == WorkerOf(e) && next == Apply(machine, e).workers[w]
      modifies this`machine
      ensures At(w, next, start)
    {
      Record(e, start);
    }

    method Account(ghost w: nat, ghost k: Task, ghost start: State)
      requires At(w, Ran(k), start)
      modifies this`pending, this`machine
      ensures At(w, Calling(k), start) && pending == old(pending) - 1
    {
      pending := pending - 1;
      Record(Decrement(w), start);
    }

    method Dequeue(ghost w: nat, ghost start: State)
      requires At(w, AtWait, start) && tasks != [] && (running || waitFinish)
      modifies this
      ensures At(w, Running(old(tasks[0])), start) && tasks == old(tasks[1..]) && others == old(others)
    {
      tasks := tasks[1..];
      Record(Take(w), start);
    }

    /** The worker loop. It returns when the worker leaves, or still waiting when nobody else will ever
        act again. A worker leaves only a stopped pool, and after a patient stop only an empty one. */
    method Work(ghost w: nat) returns (left: bool)
      requires Valid() && w < |machine.workers| && machine.workers[w].AtWait?
      modifies this
      ensures At(w, if left then Exited else AtWait, old(machine))
      ensures left ==> !running && (tasks == [] || !waitFinish)
      ensures !left ==> running && tasks == []
    {
      ghost var start := machine;
      ReachesSelf(start);
      while true
        invariant At(w, AtWait, start)
        decreases |tasks| + others
      {
        Unlocked(w, start);
        if tasks == [] && running {
          return false;
        }
        if !running && (!waitFinish || tasks == []) {
          Record(Exit(w), start);
          return true;
        }
        RunOne(w, start);
      }
    }

    /** stop: announce, wake everybody, join. `joined` tells whether all workers have left by the time
        nobody else acts any more. */
    method StopPool(wait: bool) returns (ghost joined: bool)
      requires Valid() && |machine.workers| > 0
      modifies this
      ensures Valid() && Reaches(old(machine), machine) && !running
      ensures joined <==> AllExited(machine)
      ensures joined ==> forall k: Task :: machine.ran[k] == if k < |machine.taken| then 1 else 0
      ensures joined && !machine.abandoned ==>
        tasks == [] && pending == 0 && forall k: Task :: machine.ran[k] == if k < accepted then 1 else 0
    {
      ghost var start := machine;
      ReachesSelf(start);
      running, waitFinish := false, wait;
      Record(Stop(wait), start);
      ghost var announced := machine;
      Interference(|machine.workers|);
      ReachesTransitive(start, announced, machine);
      joined := AllExited(machine);
      if joined {
        AfterJoin(machine);
        assert machine.workers[0].Exited?;
      }
    }
  }
}
