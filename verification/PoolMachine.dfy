/** zero/db/mysql_connection.cc: the connection pool as a state machine. One event is what one thread
    does between two points where others can get in: a section under `m_mutex`, or one update of an
    atomic. The lock is dropped between popping and validating a connection and between the capacity
    check and the connect, so the invariants speak about the threads in between. */
module PoolMachine {

  /** Connections are numbered in the order they are created. */
  type Conn = nat

  datatype Config = Config(minConnections: nat, maxConnections: nat)

  /** Where a thread stands. `first` tells the popping loop before the capacity check from the one
      after the wait. */
  datatype PC =
    | Outside
    | AtLoop(first: bool)
    | Checking(conn: Conn, first: bool)
    | Replacing(first: bool)
    | Growing
    | Waiting
    | Draining

  /** `hold[t]` are the connections thread `t` was given and has not released; `gone` are those that
      were closed or destroyed; `drained` records that some `close` has left its critical section. */
  datatype State = State(
    idle: seq<Conn>, total: int, running: bool, drained: bool,
    hold: seq<multiset<Conn>>, gone: set<Conn>, next: Conn, pcs: seq<PC>)

  datatype Action =
    | Call                        // enter getConnection
    | Pop                         // under the lock: take the front of the idle queue
    | FindRoom                    // under the lock, queue empty: below the maximum
    | FindFull                    // under the lock, queue empty: start waiting
    | GiveUp                      // under the lock: return no connection
    | Expire                      // idle for too long: uncount and close
    | PingFails                   // health check failed: uncount and drop
    | Accept                      // healthy: return it
    | ConnectOk                   // createConnection succeeded: count and return it
    | ConnectFails
    | Release(conn: Conn)         // releaseConnectionInternal under the lock
    | StopRunning                 // close(): m_running = false
    | Drain                       // close() under the lock

  datatype Event = Event(thread: nat, action: Action)

  /** How many threads are checking connection `c`, which is out of the queue but not handed over. */
  function PoppedOf(pcs: seq<PC>, c: Conn): nat {
    if pcs == [] then 0
    else PoppedOf(pcs[..|pcs| - 1], c) + if pcs[|pcs| - 1].Checking? && pcs[|pcs| - 1].conn == c then 1 else 0
  }

  function PoppedCount(pcs: seq<PC>): nat {
    if pcs == [] then 0
    else PoppedCount(pcs[..|pcs| - 1]) + if pcs[|pcs| - 1].Checking? then 1 else 0
  }

  function HeldOf(hold: seq<multiset<Conn>>, c: Conn): nat {
    if hold == [] then 0 else HeldOf(hold[..|hold| - 1], c) + hold[|hold| - 1][c]
  }

  function HeldCount(hold: seq<multiset<Conn>>): nat {
    if hold == [] then 0 else HeldCount(hold[..|hold| - 1]) + |hold[|hold| - 1]|
  }

  /** How often connection `c` occurs: queued, being checked, or given to a caller. */
  function Copies(s: State, c: Conn): nat {
    multiset(s.idle)[c] + PoppedOf(s.pcs, c) + HeldOf(s.hold, c)
  }

  /** Connections queued, being checked and held. */
  function LiveCount(s: State): nat {
    |s.idle| + PoppedCount(s.pcs) + HeldCount(s.hold)
  }

  predicate WellFormed(s: State) {
    |s.pcs| == |s.hold|
  }

  predicate Enabled(cfg: Config, s: State, e: Event) {
    && WellFormed(s) && e.thread < |s.pcs|
    && var pc := s.pcs[e.thread];
       match e.action
       case Call => pc.Outside?
       case Pop => (pc.AtLoop? || (pc.Waiting? && s.running)) && s.idle != []
       case FindRoom => pc == AtLoop(true) && s.idle == [] && s.total < cfg.maxConnections
       case FindFull => pc == AtLoop(true) && s.idle == [] && s.total >= cfg.maxConnections
       case GiveUp => (pc == AtLoop(false) && s.idle == []) || (pc.Waiting? && (!s.running || s.idle == []))
       case Expire => pc.Checking?
       case PingFails => pc.Checking?
       case Accept => pc.Checking?
       case ConnectOk => pc.Growing? || pc.Replacing?
       case ConnectFails => pc.Growing? || pc.Replacing?
       case Release(c) => pc.Outside? && c in s.hold[e.thread]
       case StopRunning => pc.Outside?
       case Drain => pc.Draining?
  }

  function Move(s: State, t: nat, pc: PC): State
    requires t < |s.pcs|
  {
    s.(pcs := s.pcs[t := pc])
  }

  function Hand(s: State, t: nat, c: Conn): State
    requires t < |s.hold|
  {
    s.(hold := s.hold[t := s.hold[t] + multiset{c}])
  }

  function Apply(cfg: Config, s: State, e: Event): State
    requires Enabled(cfg, s, e)
  {
    var t, pc := e.thread, s.pcs[e.thread];
    match e.action
    case Call => Move(s, t, AtLoop(true))
    case Pop => Move(s, t, Checking(s.idle[0], pc == AtLoop(true))).(idle := s.idle[1..])
    case FindRoom => Move(s, t, Growing)
    case FindFull => Move(s, t, Waiting)
    case GiveUp => Move(s, t, Outside)
    case Expire => Move(s, t, AtLoop(pc.first)).(total := s.total - 1, gone := s.gone + {pc.conn})
    case PingFails => Move(s, t, Replacing(pc.first)).(total := s.total - 1, gone := s.gone + {pc.conn})
    case Accept => Move(Hand(s, t, pc.conn), t, Outside)
    case ConnectOk => Move(Hand(s, t, s.next), t, Outside).(total := s.total + 1, next := s.next + 1)
    case ConnectFails => Move(s, t, if pc.Growing? then Waiting else AtLoop(pc.first))
    case Release(c) =>
      var after := s.(hold := s.hold[t := s.hold[t] - multiset{c}]);
      if s.running then after.(idle := s.idle + [c])
      else after.(total := s.total - 1, gone := s.gone + {c})
    case StopRunning => Move(s, t, Draining).(running := false)
    case Drain => Move(s, t, Outside).(idle := [], total := s.total - |s.idle|, drained := true,
                                       gone := s.gone + set c | c in s.idle)
  }

  /** The connections 0, 1, ..., n - 1. */
  function FirstConns(n: nat): seq<Conn> {
    if n == 0 then [] else FirstConns(n - 1) + [n - 1]
  }

  /** The pool after its constructor, when `connected` of the initial connects succeeded, and `n` threads
      that have not called it yet. */
  function Init(connected: nat, n: nat): State {
    State(FirstConns(connected), connected, true, false,
          seq(n, _ => multiset{}), {}, connected, seq(n, _ => Outside))
  }

  /** A finite interleaving. */
  datatype Run = End | Then(event: Event, rest: Run)

  predicate Possible(cfg: Config, s: State, r: Run)
    decreases r
  {
    r.Then? ==> Enabled(cfg, s, r.event) && Possible(cfg, Apply(cfg, s, r.event), r.rest)
  }

  function Final(cfg: Config, s: State, r: Run): State
    requires Possible(cfg, s, r)
    decreases r
  {
    if r.End? then s else Final(cfg, Apply(cfg, s, r.event), r.rest)
  }

  lemma {:induction false} PoppedUpdate(pcs: seq<PC>, t: nat, pc: PC, c: Conn)
    requires t < |pcs|
    ensures PoppedOf(pcs[t := pc], c) == PoppedOf(pcs, c)
            - (if pcs[t].Checking? && pcs[t].conn == c then 1 else 0) + (if pc.Checking? && pc.conn == c then 1 else 0)
    ensures PoppedCount(pcs[t := pc]) == PoppedCount(pcs)
            - (if pcs[t].Checking? then 1 else 0) + (if pc.Checking? then 1 else 0)
  {
    var front := pcs[..|pcs| - 1];
    var after := pcs[t := pc];
    if t == |pcs| - 1 {
      assert after[..|pcs| - 1] == front;
    } else {
      PoppedUpdate(front, t, pc, c);
      assert after[..|pcs| - 1] == front[t := pc];
    }
  }

  lemma {:induction false} HeldUpdate(hold: seq<multiset<Conn>>, t: nat, m: multiset<Conn>, c: Conn)
    requires t < |hold|
    ensures HeldOf(hold[t := m], c) == HeldOf(hold, c) - hold[t][c] + m[c]
    ensures HeldCount(hold[t := m]) == HeldCount(hold) - |hold[t]| + |m|
  {
    var front := hold[..|hold| - 1];
    var after := hold[t := m];
    if t == |hold| - 1 {
      assert after[..|hold| - 1] == front;
    } else {
      HeldUpdate(front, t, m, c);
      assert after[..|hold| - 1] == front[t := m];
    }
  }

  /** Each connection ever created is in exactly one place: idle, popped and being checked, held by
      one caller, or gone. */
  ghost predicate Conserved(s: State) {
    forall c: Conn :: Copies(s, c) + (if c in s.gone then 1 else 0) == if c < s.next then 1 else 0
  }

  /** The counter counts the live connections, and after a drain the queue stays empty. */
  ghost predicate Inv(s: State) {
    && WellFormed(s)
    && Conserved(s)
    && s.total == LiveCount(s)
    && (s.drained ==> s.idle == [] && !s.running)
    && (forall t | 0 <= t < |s.pcs| :: s.pcs[t].Draining? ==> !s.running)
  }

  /** How many copies of `c`, and how many connections in all, an event gives up. */
  function DroppedOf(s: State, e: Event, c: Conn): nat
    requires WellFormed(s) && e.thread < |s.pcs|
  {
    var pc := s.pcs[e.thread];
    match e.action
    case Expire => if pc.Checking? && pc.conn == c then 1 else 0
    case PingFails => if pc.Checking? && pc.conn == c then 1 else 0
    case Release(d) => if !s.running && c == d then 1 else 0
    case Drain => multiset(s.idle)[c]
    case _ => 0
  }

  function DroppedCount(s: State, e: Event): nat
    requires WellFormed(s) && e.thread < |s.pcs|
  {
    match e.action
    case Expire => 1
    case PingFails => 1
    case Release(_) => if s.running then 0 else 1
    case Drain => |s.idle|
    case _ => 0
  }

  ghost predicate LiveChanges(cfg: Config, s: State, e: Event, c: Conn)
    requires Enabled(cfg, s, e)
  {
    var after := Apply(cfg, s, e);
    && Copies(after, c) == Copies(s, c) - DroppedOf(s, e, c) + (if e.action.ConnectOk? && c == s.next then 1 else 0)
    && LiveCount(after) == LiveCount(s) - DroppedCount(s, e) + (if e.action.ConnectOk? then 1 else 0)
  }

  /** The events that move connections between the queue and a thread. */
  lemma LiveAfterQueue(cfg: Config, s: State, e: Event, c: Conn)
    requires Enabled(cfg, s, e) && (e.action.Pop? || e.action.Release?)
    ensures LiveChanges(cfg, s, e, c)
  {
    var t := e.thread;
    if e.action.Pop? {
      PoppedUpdate(s.pcs, t, Checking(s.idle[0], s.pcs[t] == AtLoop(true)), c);
      assert s.idle == [s.idle[0]] + s.idle[1..];
    } else {
      HeldUpdate(s.hold, t, s.hold[t] - multiset{e.action.conn}, c);
    }
  }

  lemma LiveAfterHandOver(cfg: Config, s: State, e: Event, c: Conn)
    requires Enabled(cfg, s, e) && (e.action.Accept? || e.action.ConnectOk?)
    ensures LiveChanges(cfg, s, e, c)
  {
    var d := if e.action.Accept? then s.pcs[e.thread].conn else s.next;
    PoppedUpdate(s.pcs, e.thread, Outside, c);
    HeldUpdate(s.hold, e.thread, s.hold[e.thread] + multiset{d}, c);
  }

  lemma LiveAfterMove(cfg: Config, s: State, e: Event, c: Conn)
    requires Enabled(cfg, s, e)
    requires !e.action.Pop? && !e.action.Release? && !e.action.Accept? && !e.action.ConnectOk?
    ensures LiveChanges(cfg, s, e, c)
  {
    PoppedUpdate(s.pcs, e.thread, Apply(cfg, s, e).pcs[e.thread], c);
  }

  /** One event changes the live connections by what it creates and what it gives up. */
  lemma LiveAfter(cfg: Config, s: State, e: Event, c: Conn)
    requires Enabled(cfg, s, e)
    ensures LiveChanges(cfg, s, e, c)
  {
    if e.action.Pop? || e.action.Release? {
      LiveAfterQueue(cfg, s, e, c);
    } else if e.action.Accept? || e.action.ConnectOk? {
      LiveAfterHandOver(cfg, s, e, c);
    } else {
      LiveAfterMove(cfg, s, e, c);
    }
  }

  /** What one event does to the counters. */
  lemma BooksAfter(cfg: Config, s: State, e: Event)
    requires Enabled(cfg, s, e)
    ensures var after := Apply(cfg, s, e);
            && WellFormed(after)
            && after.total == s.total - DroppedCount(s, e) + (if e.action.ConnectOk? then 1 else 0)
            && after.next == s.next + (if e.action.ConnectOk? then 1 else 0)
            && (forall c :: c in after.gone <==> c in s.gone || DroppedOf(s, e, c) > 0)
  {
  }

  lemma ConservedKept(cfg: Config, s: State, e: Event)
    requires Conserved(s) && Enabled(cfg, s, e)
    ensures Conserved(Apply(cfg, s, e))
  {
    BooksAfter(cfg, s, e);
    var after := Apply(cfg, s, e);
    forall c: Conn
      ensures Copies(after, c) + (if c in after.gone then 1 else 0) == if c < after.next then 1 else 0
    {
      LiveAfter(cfg, s, e, c);
      assert Copies(s, c) + (if c in s.gone then 1 else 0) == if c < s.next then 1 else 0;
    }
  }

  lemma InvKept(cfg: Config, s: State, e: Event)
    requires Inv(s) && Enabled(cfg, s, e)
    ensures Inv(Apply(cfg, s, e))
  {
    LiveAfter(cfg, s, e, 0);
    BooksAfter(cfg, s, e);
    ConservedKept(cfg, s, e);
    ClosedKept(cfg, s, e);
  }

  /** What `close` established stays: nothing is queued any more and the pool never runs again. */
  lemma ClosedKept(cfg: Config, s: State, e: Event)
    requires Inv(s) && Enabled(cfg, s, e)
    ensures var after := Apply(cfg, s, e);
            && (after.drained ==> after.idle == [] && !after.running)
            && (forall t | 0 <= t < |after.pcs| :: after.pcs[t].Draining? ==> !after.running)
            && (!s.running ==> !after.running)
            && (s.drained ==> after.drained)
  {
  }

  lemma {:induction false} NothingPopped(pcs: seq<PC>, c: Conn)
    requires forall t | 0 <= t < |pcs| :: !pcs[t].Checking?
    ensures PoppedOf(pcs, c) == 0 && PoppedCount(pcs) == 0
  {
    if pcs != [] {
      NothingPopped(pcs[..|pcs| - 1], c);
    }
  }

  lemma {:induction false} NothingHeld(hold: seq<multiset<Conn>>, c: Conn)
    requires forall t | 0 <= t < |hold| :: |hold[t]| == 0
    ensures HeldOf(hold, c) == 0 && HeldCount(hold) == 0
  {
    if hold != [] {
      NothingHeld(hold[..|hold| - 1], c);
    }
  }

  lemma {:induction false} CountUp(n: nat, c: Conn)
    ensures |FirstConns(n)| == n && multiset(FirstConns(n))[c] == if c < n then 1 else 0
  {
    if n != 0 {
      CountUp(n - 1, c);
    }
  }

  lemma InitInv(connected: nat, n: nat)
    ensures Inv(Init(connected, n))
  {
    var s := Init(connected, n);
    NothingPopped(s.pcs, 0);
    NothingHeld(s.hold, 0);
    CountUp(connected, 0);
    forall c: Conn
      ensures Copies(s, c) == if c < s.next then 1 else 0
    {
      NothingPopped(s.pcs, c);
      NothingHeld(s.hold, c);
      CountUp(connected, c);
    }
  }

  lemma {:induction false} RunInv(cfg: Config, s: State, r: Run)
    requires Inv(s) && Possible(cfg, s, r)
    ensures Inv(Final(cfg, s, r))
    decreases r
  {
    if r.Then? {
      InvKept(cfg, s, r.event);
      RunInv(cfg, Apply(cfg, s, r.event), r.rest);
    }
  }

  lemma {:induction false} HeldOnce(hold: seq<multiset<Conn>>, t: nat, u: nat, c: Conn)
    requires t < u < |hold|
    ensures hold[t][c] + hold[u][c] <= HeldOf(hold, c)
  {
    var front := hold[..|hold| - 1];
    if u == |hold| - 1 {
      HeldUpdate(front, t, multiset{}, c);
    } else {
      HeldOnce(front, t, u, c);
    }
  }

  /** What conservation means to a caller: in every interleaving, a connection it holds is held by
      nobody else, given only once, queued nowhere, being checked by nobody and still open. */
  lemma Exclusive(s: State, t: nat, c: Conn)
    requires Inv(s) && t < |s.hold| && c in s.hold[t]
    ensures s.hold[t][c] == 1 && c !in s.idle && c !in s.gone
    ensures forall u | 0 <= u < |s.hold| && u != t :: c !in s.hold[u]
    ensures forall u | 0 <= u < |s.pcs| && s.pcs[u].Checking? :: s.pcs[u].conn != c
  {
    assert Copies(s, c) + (if c in s.gone then 1 else 0) == if c < s.next then 1 else 0;
    HeldUpdate(s.hold, t, multiset{}, c);
    forall u | 0 <= u < |s.hold| && u != t
      ensures c !in s.hold[u]
    {
      HeldOnce(s.hold, if t < u then t else u, if t < u then u else t, c);
    }
    forall u | 0 <= u < |s.pcs| && s.pcs[u].Checking?
      ensures s.pcs[u].conn != c
    {
      PoppedUpdate(s.pcs, u, Outside, c);
    }
  }

  /** Thread `t` has connection `c` to itself. */
  ghost predicate OwnedAlone(s: State, t: nat, c: Conn)
    requires t < |s.hold|
  {
    && s.hold[t][c] == 1 && c !in s.idle && c !in s.gone
    && forall u | 0 <= u < |s.hold| && u != t :: c !in s.hold[u]
  }

  /** In every interleaving from a fresh pool: the counter is exact, and holders are exclusive. */
  lemma EveryInterleaving(cfg: Config, connected: nat, n: nat, r: Run)
    requires Possible(cfg, Init(connected, n), r)
    ensures var s := Final(cfg, Init(connected, n), r);
            && s.total == |s.idle| + PoppedCount(s.pcs) + HeldCount(s.hold)
            && forall t, c | 0 <= t < |s.hold| && c in s.hold[t] :: OwnedAlone(s, t, c)
  {
    InitInv(connected, n);
    RunInv(cfg, Init(connected, n), r);
    var s := Final(cfg, Init(connected, n), r);
    forall t, c | 0 <= t < |s.hold| && c in s.hold[t]
      ensures OwnedAlone(s, t, c)
    {
      Exclusive(s, t, c);
    }
  }

  /** After close() has left its critical section the queue is empty in every later state. */
  lemma {:induction false} ClosedForever(cfg: Config, s: State, r: Run)
    requires Inv(s) && s.drained && Possible(cfg, s, r)
    ensures var last := Final(cfg, s, r); last.drained && last.idle == [] && !last.running
    decreases r
  {
    if r.Then? {
      InvKept(cfg, s, r.event);
      ClosedKept(cfg, s, r.event);
      ClosedForever(cfg, Apply(cfg, s, r.event), r.rest);
    }
  }

  /** Whatever runs between the end of close() and a release, that release closes the connection for
      good, takes it out of the count and leaves the queue empty. */
  lemma ReleaseAfterClose(cfg: Config, s: State, r: Run, e: Event, later: Run)
    requires Inv(s) && s.drained && Possible(cfg, s, r)
    requires e.action.Release? && Enabled(cfg, Final(cfg, s, r), e)
    requires Possible(cfg, Apply(cfg, Final(cfg, s, r), e), later)
    ensures var before := Final(cfg, s, r);
            var after := Apply(cfg, before, e);
            && after.total == before.total - 1 && after.idle == [] && e.action.conn in after.gone
            && e.action.conn in Final(cfg, after, later).gone
  {
    ClosedForever(cfg, s, r);
    GoneForever(cfg, Apply(cfg, Final(cfg, s, r), e), later, e.action.conn);
  }

  lemma {:induction false} GoneForever(cfg: Config, s: State, r: Run, c: Conn)
    requires Possible(cfg, s, r) && c in s.gone
    ensures c in Final(cfg, s, r).gone
    decreases r
  {
    if r.Then? {
      GoneForever(cfg, Apply(cfg, s, r.event), r.rest, c);
    }
  }

  /** When the pool is closed, nobody is inside and everything was released, nothing is counted and
      every connection ever opened has been given up. */
  lemma ShutdownComplete(s: State)
    requires Inv(s) && s.drained
    requires forall t | 0 <= t < |s.pcs| :: s.pcs[t].Outside? && |s.hold[t]| == 0
    ensures s.total == 0
    ensures forall c: Conn :: c < s.next <==> c in s.gone
  {
    NothingPopped(s.pcs, 0);
    NothingHeld(s.hold, 0);
    forall c: Conn
      ensures c < s.next <==> c in s.gone
    {
      NothingPopped(s.pcs, c);
      NothingHeld(s.hold, c);
      assert Copies(s, c) + (if c in s.gone then 1 else 0) == if c < s.next then 1 else 0;
    }
  }
}
