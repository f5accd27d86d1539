/** zero/db/mysql_connection.cc: the pool's methods as the code has them, run by one thread while any
    other threads interfere wherever the lock is not held. Every method is shown to perform exactly
    events of the state machine in PoolMachine, so what is proved there of every interleaving holds
    of this code. */
module ConnectionPool {
  import opened Options
  import opened PoolMachine

  ghost predicate Reaches(cfg: Config, s: State, s': State) {
    exists r :: Possible(cfg, s, r) && Final(cfg, s, r) == s'
  }

  lemma ReachesSelf(cfg: Config, s: State)
    ensures Reaches(cfg, s, s)
  {
    assert Possible(cfg, s, End) && Final(cfg, s, End) == s;
  }

  lemma {:induction false} Extend(cfg: Config, s: State, a: Run, b: Run) returns (r: Run)
    requires Possible(cfg, s, a) && Possible(cfg, Final(cfg, s, a), b)
    ensures Possible(cfg, s, r) && Final(cfg, s, r) == Final(cfg, Final(cfg, s, a), b)
    decreases a
  {
    if a.End? {
      r := b;
    } else {
      var rest := Extend(cfg, Apply(cfg, s, a.event), a.rest, b);
      r := Then(a.event, rest);
    }
  }

  lemma ReachesTransitive(cfg: Config, s: State, m: State, s': State)
    requires Reaches(cfg, s, m) && Reaches(cfg, m, s')
    ensures Reaches(cfg, s, s')
  {
    var a :| Possible(cfg, s, a) && Final(cfg, s, a) == m;
    var b :| Possible(cfg, m, b) && Final(cfg, m, b) == s';
    var r := Extend(cfg, s, a, b);
  }

  lemma ReachesStep(cfg: Config, s: State, m: State, e: Event)
    requires Reaches(cfg, s, m) && Enabled(cfg, m, e)
    ensures Reaches(cfg, s, Apply(cfg, m, e))
  {
    var after := Apply(cfg, m, e);
    assert Possible(cfg, after, End) && Final(cfg, after, End) == after;
    assert Possible(cfg, m, Then(e, End)) && Final(cfg, m, Then(e, End)) == after;
    ReachesTransitive(cfg, s, m, Apply(cfg, m, e));
  }

  /** A run in which thread `t` does nothing. */
  predicate Foreign(r: Run, t: nat) {
    r.Then? ==> r.event.thread != t && Foreign(r.rest, t)
  }

  function Length(r: Run): nat {
    if r.End? then 0 else 1 + Length(r.rest)
  }

  /** What other threads cannot do to this one. */
  lemma {:induction false} ForeignRun(cfg: Config, s: State, r: Run, t: nat)
    requires Inv(s) && Possible(cfg, s, r) && Foreign(r, t) && t < |s.pcs|
    ensures var after := Final(cfg, s, r);
            && Inv(after) && t < |after.pcs|
            && after.pcs[t] == s.pcs[t] && after.hold[t] == s.hold[t]
            && |after.idle| <= |s.idle| + Length(r)
            && (!s.running ==> !after.running)
    decreases r
  {
    if r.Then? {
      InvKept(cfg, s, r.event);
      ForeignStep(cfg, s, r.event, t);
      ForeignRun(cfg, Apply(cfg, s, r.event), r.rest, t);
    }
  }

  lemma ForeignStep(cfg: Config, s: State, e: Event, t: nat)
    requires Enabled(cfg, s, e) && e.thread != t && t < |s.pcs|
    ensures var after := Apply(cfg, s, e);
            && t < |after.pcs| && after.pcs[t] == s.pcs[t] && after.hold[t] == s.hold[t]
            && |after.idle| <= |s.idle| + 1
            && (!s.running ==> !after.running)
  {
  }

  /** What the clock, the pings and the server decide during one call: which connections have been idle for
      too long, which no longer answer, for which of these a new connect succeeds, and whether a connect
      for one more does. A connection that fails is gone, so none is asked about twice. */
  datatype World = World(expired: Conn -> bool, dead: Conn -> bool, replaced: Conn -> bool, grown: bool)

  /** The front connection serves the caller: by itself, or through a new one in its place. */
  predicate Serves(w: World, c: Conn) {
    !w.expired(c) && (w.dead(c) ==> w.replaced(c))
  }

  datatype Taken = Taken(conn: Option<Conn>, idle: seq<Conn>, total: int)

  /** getConnection with nobody else about: the first idle connection that serves, else one more if there is
      room for it. */
  function Alone(w: World, maximum: nat, idle: seq<Conn>, total: int, next: Conn): Taken
    decreases |idle|
  {
    if idle == [] then
      if total < maximum && w.grown then Taken(Some(next), [], total + 1) else Taken(None, [], total)
    else if Serves(w, idle[0]) then Taken(Some(if w.dead(idle[0]) then next else idle[0]), idle[1..], total)
    else Alone(w, maximum, idle[1..], total - 1, next)
  }

  /** The first that serves is found behind those that do not, and each of those is uncounted. */
  lemma {:induction false} FirstThatServes(w: World, maximum: nat, idle: seq<Conn>, total: int, next: Conn, k: nat)
    requires k < |idle| && Serves(w, idle[k]) && forall i | 0 <= i < k :: !Serves(w, idle[i])
    ensures Alone(w, maximum, idle, total, next)
         == Taken(Some(if w.dead(idle[k]) then next else idle[k]), idle[k + 1..], total - k)
    decreases k
  {
    if k > 0 {
      FirstThatServes(w, maximum, idle[1..], total - 1, next, k - 1);
      assert idle[1..][k..] == idle[k + 1..];
    } else {
      assert idle[0 + 1..] == idle[1..];
    }
  }

  /** When none does, the caller gets a new connection exactly if there is room for it by then and its connect
      succeeds. */
  lemma {:induction false} NoneServes(w: World, maximum: nat, idle: seq<Conn>, total: int, next: Conn)
    requires forall i | 0 <= i < |idle| :: !Serves(w, idle[i])
    ensures var room := total - |idle| < maximum;
            Alone(w, maximum, idle, total, next)
              == if room && w.grown then Taken(Some(next), [], total - |idle| + 1) else Taken(None, [], total - |idle|)
    decreases |idle|
  {
    if idle != [] {
      NoneServes(w, maximum, idle[1..], total - 1, next);
    }
  }

  /** How many of the first `n` attempts to connect succeed. */
  function Successes(connects: nat -> bool, n: nat): (k: nat)
    ensures k <= n
  {
    if n == 0 then 0 else Successes(connects, n - 1) + if connects(n - 1) then 1 else 0
  }

  class MySQLConnectionPool {
    const cfg: Config
    var connections: seq<Conn>
    var totalConnections: int
    var running: bool
    /** Stands for the identity of the connection objects: how many were opened so far. */
    var created: Conn

    ghost var machine: State
    /** How many events of other threads are still to come. */
    ghost var others: nat

    ghost predicate Valid()
      reads this
    {
      && Inv(machine)
      && machine.idle == connections
      && machine.total == totalConnections
      && machine.running == running
      && machine.next == created
    }

    ghost predicate At(t: nat, pc: PC, hold: multiset<Conn>, start: State)
      reads this
    {
      && Valid() && t < |machine.pcs|
      && machine.pcs[t] == pc && machine.hold[t] == hold
      && Reaches(cfg, start, machine)
    }

    /** initPool: `minConnections` attempts to connect, of which `connects` tells which succeed; `n` is how
        many threads will use the pool, `events` how much other threads will do. */
    constructor (cfg: Config, connects: nat -> bool, n: nat, ghost events: nat)
      ensures Valid() && this.cfg == cfg && running && others == events
      ensures |connections| == totalConnections == Successes(connects, cfg.minConnections)
      ensures machine == Init(|connections|, n)
    {
      this.cfg := cfg;
      connections, totalConnections, running, created := [], 0, true, 0;
      machine, others := Init(0, n), events;
      new;
      for i := 0 to cfg.minConnections
        invariant totalConnections == created == |connections| == Successes(connects, i)
        invariant connections == FirstConns(|connections|)
        invariant running && others == events
      {
        if connects(i) {
          connections := connections + [created];
          created, totalConnections := created + 1, totalConnections + 1;
        }
      }
      machine := Init(|connections|, n);
      InitInv(|connections|, n);
    }

    /** Other threads run for a while. The caller learns only what any interleaving guarantees. */
    method Interference(ghost t: nat)
      requires Valid() && t < |machine.pcs|
      modifies this
      ensures Valid() && t < |machine.pcs|
      ensures machine.pcs[t] == old(machine.pcs[t]) && machine.hold[t] == old(machine.hold[t])
      ensures exists r :: Foreign(r, t) && Possible(cfg, old(machine), r) && Final(cfg, old(machine), r) == machine
                          && Length(r) + others == old(others)
      ensures Reaches(cfg, old(machine), machine)
      ensures |connections| + others <= old(|connections| + others)
      ensures !old(running) ==> !running
      ensures old(others) == 0 ==> machine == old(machine) && others == 0
    {
      assert Foreign(End, t) && Possible(cfg, machine, End) && Final(cfg, machine, End) == machine && Length(End) == 0;
    }

    /** This thread's own event, already performed on the real fields. */
    ghost method Record(t: nat, a: Action, start: State)
      requires Inv(machine) && Enabled(cfg, machine, Event(t, a)) && Reaches(cfg, start, machine)
      modifies this`machine
      ensures machine == Apply(cfg, old(machine), Event(t, a)) && Inv(machine) && Reaches(cfg, start, machine)
    {
      InvKept(cfg, machine, Event(t, a));
      ReachesStep(cfg, start, machine, Event(t, a));
      machine := Apply(cfg, machine, Event(t, a));
    }

    /** createConnection: connect, then count. Connecting can fail. */
    method CreateConnection(connected: bool, ghost t: nat, ghost start: State) returns (conn: Option<Conn>)
      requires Valid() && t < |machine.pcs| && (machine.pcs[t].Growing? || machine.pcs[t].Replacing?)
      requires Reaches(cfg, start, machine)
      modifies this
      ensures others == old(others) && connections == old(connections) && running == old(running)
      ensures conn == if connected then Some(old(created)) else None
      ensures totalConnections == old(totalConnections) + if connected then 1 else 0
      ensures created == old(created) + if connected then 1 else 0
      ensures match conn
              case Some(c) => At(t, Outside, old(machine.hold[t]) + multiset{c}, start)
              case None => At(t, if old(machine.pcs[t]).Growing? then Waiting else AtLoop(old(machine.pcs[t]).first),
                              old(machine.hold[t]), start)
    {
      if !connected {
        Record(t, ConnectFails, start);
        return None;
      }
      conn := Some(created);
      created, totalConnections := created + 1, totalConnections + 1;
      Record(t, ConnectOk, start);
    }

    /** checkIdleTimeout: whether the connection was idle for too long is up to the clock. */
    method CheckIdleTimeout(w: World, ghost t: nat, conn: Conn, ghost first: bool, ghost start: State)
      returns (expired: bool)
      requires Valid() && t < |machine.pcs| && machine.pcs[t] == Checking(conn, first) && Reaches(cfg, start, machine)
      modifies this
      ensures others == old(others) && connections == old(connections) && running == old(running) && created == old(created)
      ensures expired == w.expired(conn) && totalConnections == old(totalConnections) - if expired then 1 else 0
      ensures At(t, if expired then AtLoop(first) else Checking(conn, first), old(machine.hold[t]), start)
    {
      expired := w.expired(conn);
      if expired {
        totalConnections := totalConnections - 1;
        Record(t, Expire, start);
      }
    }

    /** checkConnection: a connection checked recently is trusted, otherwise a ping decides. */
    method CheckConnection(w: World, ghost t: nat, conn: Conn, ghost first: bool, ghost start: State)
      returns (healthy: bool)
      requires Valid() && t < |machine.pcs| && machine.pcs[t] == Checking(conn, first) && Reaches(cfg, start, machine)
      modifies this
      ensures others == old(others) && connections == old(connections) && running == old(running) && created == old(created)
      ensures healthy == !w.dead(conn) && totalConnections == old(totalConnections) - if healthy then 0 else 1
      ensures At(t, if healthy then Checking(conn, first) else Replacing(first), old(machine.hold[t]), start)
    {
      healthy := !w.dead(conn);
      if !healthy {
        totalConnections := totalConnections - 1;
        Record(t, PingFails, start);
      }
    }

    /** One trip round either popping loop: take the front connection, validate it without the lock,
        replace it when it is dead. Without a result the lock is held again on return. */
    method TryFront(w: World, ghost t: nat, ghost first: bool, ghost start: State) returns (conn: Option<Conn>)
      requires Valid() && connections != [] && t < |machine.pcs| && Reaches(cfg, start, machine)
      requires machine.pcs[t] == AtLoop(first) || (machine.pcs[t].Waiting? && running && !first)
      modifies this
      ensures |connections| + others < old(|connections| + others)
      ensures conn.Some? <==> Serves(w, old(connections[0]))
      ensures conn.Some? && !w.dead(old(connections[0])) ==> conn.value == old(connections[0])
      ensures old(others) == 0 ==>
        && others == 0 && running == old(running) && connections == old(connections[1..])
        && (conn.Some? ==> totalConnections == old(totalConnections)
                           && (w.dead(old(connections[0])) ==> conn.value == old(created)))
        && (conn.None? ==> totalConnections == old(totalConnections) - 1 && created == old(created))
      ensures match conn
              case Some(c) => At(t, Outside, old(machine.hold[t]) + multiset{c}, start)
              case None => At(t, AtLoop(first), old(machine.hold[t]), start)
    {
      var c := connections[0];
      connections := connections[1..];
      Record(t, Pop, start);
      Unlocked(t, start);
      conn := Validate(w, t, c, first, start);
    }

    /** The connection just taken, checked without the lock, and a new one for it when it is dead. */
    method Validate(w: World, ghost t: nat, c: Conn, ghost first: bool, ghost start: State) returns (conn: Option<Conn>)
      requires Valid() && t < |machine.pcs| && machine.pcs[t] == Checking(c, first) && Reaches(cfg, start, machine)
      modifies this
      ensures |connections| + others <= old(|connections| + others)
      ensures conn.Some? <==> Serves(w, c)
      ensures conn.Some? && !w.dead(c) ==> conn.value == c
      ensures old(others) == 0 ==>
        && others == 0 && running == old(running) && connections == old(connections)
        && (conn.Some? ==> totalConnections == old(totalConnections) && (w.dead(c) ==> conn.value == old(created)))
        && (conn.None? ==> totalConnections == old(totalConnections) - 1 && created == old(created))
      ensures match conn
              case Some(c) => At(t, Outside, old(machine.hold[t]) + multiset{c}, start)
              case None => At(t, AtLoop(first), old(machine.hold[t]), start)
    {
      var expired := CheckIdleTimeout(w, t, c, first, start);
      Unlocked(t, start);
      if expired {
        return None;
      }
      var healthy := CheckConnection(w, t, c, first, start);
      Unlocked(t, start);
      if healthy {
        Record(t, Accept, start);
        return Some(c);
      }
      conn := Replace(w, t, c, first, start);
    }

    /** createConnection in place of a dead one. */
    method Replace(w: World, ghost t: nat, c: Conn, ghost first: bool, ghost start: State) returns (conn: Option<Conn>)
      requires Valid() && t < |machine.pcs| && machine.pcs[t] == Replacing(first) && Reaches(cfg, start, machine)
      modifies this
      ensures |connections| + others <= old(|connections| + others)
      ensures conn.Some? <==> w.replaced(c)
      ensures old(others) == 0 ==>
        && others == 0 && running == old(running) && connections == old(connections)
        && (conn.Some? ==> totalConnections == old(totalConnections) + 1 && conn.value == old(created))
        && (conn.None? ==> totalConnections == old(totalConnections) && created == old(created))
      ensures match conn
              case Some(c) => At(t, Outside, old(machine.hold[t]) + multiset{c}, start)
              case None => At(t, AtLoop(first), old(machine.hold[t]), start)
    {
      conn := CreateConnection(w.replaced(c), t, start);
      if conn.None? {
        Unlocked(t, start);
      }
    }

    /** Interference between two of this thread's own events. */
    method Unlocked(ghost t: nat, ghost start: State)
      requires Valid() && t < |machine.pcs| && Reaches(cfg, start, machine)
      modifies this
      ensures At(t, old(machine.pcs[t]), old(machine.hold[t]), start)
      ensures |connections| + others <= old(|connections| + others)
      ensures !old(running) ==> !running
      ensures old(others) == 0 ==> machine == old(machine) && others == 0
    {
      ghost var before := machine;
      Interference(t);
      ReachesTransitive(cfg, start, before, machine);
    }

    /** getConnection by thread `t`, with other threads free to act whenever the lock is not held. */
    method GetConnection(w: World, ghost t: nat) returns (conn: Option<Conn>)
      requires Valid() && t < |machine.pcs| && machine.pcs[t].Outside?
      modifies this
      ensures match conn
              case Some(c) => At(t, Outside, old(machine.hold[t]) + multiset{c}, old(machine))
              case None => At(t, Outside, old(machine.hold[t]), old(machine))
      ensures old(others) == 0 ==>
        Taken(conn, connections, totalConnections)
          == Alone(w, cfg.maxConnections, old(connections), old(totalConnections), old(created))
    {
      ghost var start := machine;
      ghost var held := machine.hold[t];
      ReachesSelf(cfg, start);
      Record(t, Call, start);
      conn := TakeIdle(w, t, held, start);
      if conn.None? {
        conn := GrowOrWait(w, t, held, start);
      }
    }

    /** The loop over the idle queue. */
    method TakeIdle(w: World, ghost t: nat, ghost held: multiset<Conn>, ghost start: State) returns (conn: Option<Conn>)
      requires At(t, AtLoop(true), held, start)
      modifies this
      ensures conn.None? ==> connections == []
      ensures old(others) == 0 ==>
        && others == 0
        && Alone(w, cfg.maxConnections, old(connections), old(totalConnections), old(created))
             == if conn.Some? then Taken(conn, connections, totalConnections)
                else Alone(w, cfg.maxConnections, [], totalConnections, created)
      ensures match conn
              case Some(c) => At(t, Outside, held + multiset{c}, start)
              case None => At(t, AtLoop(true), held, start)
    {
      ghost var alone := Alone(w, cfg.maxConnections, connections, totalConnections, created);
      while connections != []
        invariant At(t, AtLoop(true), held, start)
        invariant old(others) == 0 ==>
          others == 0 && alone == Alone(w, cfg.maxConnections, connections, totalConnections, created)
        decreases |connections| + others
      {
        conn := TryFront(w, t, true, start);
        if conn.Some? {
          return;
        }
      }
      conn := None;
    }

    /** getConnection with an empty queue: one connection more if there is room, or wait for another's. */
    method GrowOrWait(w: World, ghost t: nat, ghost held: multiset<Conn>, ghost start: State) returns (conn: Option<Conn>)
      requires At(t, AtLoop(true), held, start) && connections == []
      modifies this
      ensures old(others) == 0 ==>
        Taken(conn, connections, totalConnections)
          == Alone(w, cfg.maxConnections, [], old(totalConnections), old(created))
      ensures match conn
              case Some(c) => At(t, Outside, held + multiset{c}, start)
              case None => At(t, Outside, held, start)
    {
      if totalConnections < cfg.maxConnections {
        Record(t, FindRoom, start);
        Unlocked(t, start);
        conn := CreateConnection(w.grown, t, start);
        if conn.Some? {
          return;
        }
      } else {
        Record(t, FindFull, start);
      }
      conn := AwaitConnection(w, t, held, start);
    }

    /** The end of getConnection: wait, then take what was released meanwhile. */
    method AwaitConnection(w: World, ghost t: nat, ghost held: multiset<Conn>, ghost start: State)
      returns (conn: Option<Conn>)
      requires At(t, Waiting, held, start)
      modifies this
      ensures old(others) == 0 && old(connections) == [] ==>
        conn.None? && connections == [] && totalConnections == old(totalConnections)
      ensures match conn
              case Some(c) => At(t, Outside, held + multiset{c}, start)
              case None => At(t, Outside, held, start)
    {
      Unlocked(t, start);
      if connections != [] || !running {
        if !running {
          Record(t, GiveUp, start);
          return None;
        }
        while connections != []
          invariant At(t, AtLoop(false), held, start) || (At(t, Waiting, held, start) && running && connections != [])
          decreases |connections| + others
        {
          conn := TryFront(w, t, false, start);
          if conn.Some? {
            return;
          }
        }
      }
      Record(t, GiveUp, start);
      conn := None;
    }

    /** releaseConnectionInternal, by a thread that holds the connection. */
    method ReleaseConnection(ghost t: nat, conn: Conn)
      requires Valid() && t < |machine.pcs| && machine.pcs[t].Outside? && conn in machine.hold[t]
      modifies this
      ensures Valid() && machine == Apply(cfg, old(machine), Event(t, Release(conn)))
    {
      ReachesSelf(cfg, machine);
      if !running {
        totalConnections := totalConnections - 1;
      } else {
        connections := connections + [conn];
      }
      Record(t, Release(conn), machine);
    }

    /** close(): stop first, without the lock; then empty the queue under it. */
    method Close(ghost t: nat)
      requires Valid() && t < |machine.pcs| && machine.pcs[t].Outside?
      modifies this
      ensures At(t, Outside, old(machine.hold[t]), old(machine))
      ensures machine.drained && connections == [] && !running
    {
      ghost var start := machine;
      ReachesSelf(cfg, start);
      running := false;
      Record(t, StopRunning, start);
      Unlocked(t, start);
      ghost var k := 0;
      while connections != []
        invariant k <= |machine.idle| && connections == machine.idle[k..]
        invariant totalConnections == machine.total - k
        invariant machine.running == running == false && machine.next == created
        invariant Inv(machine) && Reaches(cfg, start, machine) && t < |machine.pcs|
        invariant machine.pcs[t].Draining? && machine.hold[t] == start.hold[t]
      {
        connections := connections[1..];
        totalConnections := totalConnections - 1;
        k := k + 1;
      }
      Record(t, Drain, start);
    }
  }
}
