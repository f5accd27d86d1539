/** How far the pool can overshoot `maxConnections`: the capacity check and the connect are not one
    step, so the bound depends on how many threads are inside getConnection at once. */
module PoolBound {
  import opened PoolMachine

  predicate IsInside(pc: PC) {
    !pc.Outside? && !pc.Draining?
  }

  /** A thread that has passed the capacity check, or has just uncounted a dead connection, and is
      about to connect. */
  predicate IsConnecting(pc: PC) {
    pc.Growing? || pc.Replacing?
  }

  function Inside(pcs: seq<PC>): nat {
    if pcs == [] then 0 else Inside(pcs[..|pcs| - 1]) + if IsInside(pcs[|pcs| - 1]) then 1 else 0
  }

  function Connecting(pcs: seq<PC>): nat {
    if pcs == [] then 0 else Connecting(pcs[..|pcs| - 1]) + if IsConnecting(pcs[|pcs| - 1]) then 1 else 0
  }

  lemma {:induction false} CountsUpdate(pcs: seq<PC>, t: nat, pc: PC)
    requires t < |pcs|
    ensures Connecting(pcs[t := pc])
            == Connecting(pcs) - (if IsConnecting(pcs[t]) then 1 else 0) + (if IsConnecting(pc) then 1 else 0)
  {
    var front, after := pcs[..|pcs| - 1], pcs[t := pc];
    if t == |pcs| - 1 {
      assert after[..|pcs| - 1] == front;
    } else {
      CountsUpdate(front, t, pc);
      assert after[..|pcs| - 1] == front[t := pc];
    }
  }

  lemma {:induction false} ConnectingAreInside(pcs: seq<PC>)
    ensures Connecting(pcs) <= Inside(pcs) <= |pcs|
  {
    if pcs != [] {
      ConnectingAreInside(pcs[..|pcs| - 1]);
    }
  }

  function Bound(cfg: Config, threads: nat): int {
    if cfg.minConnections > cfg.maxConnections - 1 + threads then cfg.minConnections
    else cfg.maxConnections - 1 + threads
  }

  /** No state of the run has more than `threads` threads inside getConnection. */
  predicate AtMostInside(cfg: Config, s: State, r: Run, threads: nat)
    requires Possible(cfg, s, r)
    decreases r
  {
    Inside(s.pcs) <= threads
    && (r.Then? ==> AtMostInside(cfg, Apply(cfg, s, r.event), r.rest, threads))
  }

  /** The inductive form: connections counted plus connections about to be. */
  lemma PotentialKept(cfg: Config, s: State, e: Event, threads: nat)
    requires Enabled(cfg, s, e) && s.total + Connecting(s.pcs) <= Bound(cfg, threads)
    requires Inside(Apply(cfg, s, e).pcs) <= threads
    ensures Apply(cfg, s, e).total + Connecting(Apply(cfg, s, e).pcs) <= Bound(cfg, threads)
  {
    var after := Apply(cfg, s, e);
    CountsUpdate(s.pcs, e.thread, after.pcs[e.thread]);
    ConnectingAreInside(after.pcs);
    assert after.pcs == s.pcs[e.thread := after.pcs[e.thread]];
  }

  lemma {:induction false} PotentialBounded(cfg: Config, s: State, r: Run, threads: nat)
    requires Possible(cfg, s, r) && AtMostInside(cfg, s, r, threads)
    requires s.total + Connecting(s.pcs) <= Bound(cfg, threads)
    ensures Final(cfg, s, r).total <= Bound(cfg, threads)
    decreases r
  {
    if r.Then? {
      var after := Apply(cfg, s, r.event);
      PotentialKept(cfg, s, r.event, threads);
      PotentialBounded(cfg, after, r.rest, threads);
    }
  }

  lemma {:induction false} NobodyConnecting(pcs: seq<PC>)
    requires forall t | 0 <= t < |pcs| :: pcs[t].Outside?
    ensures Connecting(pcs) == 0
  {
    if pcs != [] {
      NobodyConnecting(pcs[..|pcs| - 1]);
    }
  }

  /** With at most `threads` threads inside getConnection the counter never exceeds
      max(minConnections, maxConnections - 1 + threads). */
  lemma TotalBounded(cfg: Config, connected: nat, n: nat, r: Run, threads: nat)
    requires connected <= cfg.minConnections
    requires Possible(cfg, Init(connected, n), r) && AtMostInside(cfg, Init(connected, n), r, threads)
    ensures Final(cfg, Init(connected, n), r).total <= Bound(cfg, threads)
  {
    NobodyConnecting(Init(connected, n).pcs);
    PotentialBounded(cfg, Init(connected, n), r, threads);
  }

  /** Serialized calls respect the configured maximum. */
  lemma SerializedCallsRespectMaximum(cfg: Config, connected: nat, n: nat, r: Run)
    requires connected <= cfg.minConnections <= cfg.maxConnections
    requires Possible(cfg, Init(connected, n), r) && AtMostInside(cfg, Init(connected, n), r, 1)
    ensures Final(cfg, Init(connected, n), r).total <= cfg.maxConnections
  {
    TotalBounded(cfg, connected, n, r, 1);
  }

  function Append(a: Run, b: Run): Run {
    if a.End? then b else Then(a.event, Append(a.rest, b))
  }

  lemma {:induction false} AppendRuns(cfg: Config, s: State, a: Run, b: Run)
    requires Possible(cfg, s, a) && Possible(cfg, Final(cfg, s, a), b)
    ensures Possible(cfg, s, Append(a, b)) && Final(cfg, s, Append(a, b)) == Final(cfg, Final(cfg, s, a), b)
    decreases a
  {
    if a.Then? {
      AppendRuns(cfg, Apply(cfg, s, a.event), a.rest, b);
    }
  }

  /** `n` threads, an empty queue, `total` connections out, and the first `growing` threads between
      the capacity check and the connect. */
  predicate Shape(s: State, n: nat, total: int, growing: nat) {
    && WellFormed(s) && |s.pcs| == n && s.idle == [] && s.total == total && growing <= n
    && forall t | 0 <= t < n :: s.pcs[t] == if t < growing then Growing else Outside
  }

  /** Thread 0 takes `k` connections one after the other. */
  lemma {:induction false} TakeInTurn(cfg: Config, s: State, n: nat, total: nat, k: nat) returns (r: Run)
    requires Shape(s, n, total, 0) && n > 0 && total + k <= cfg.maxConnections
    ensures Possible(cfg, s, r) && Shape(Final(cfg, s, r), n, total + k, 0)
    decreases k
  {
    if k == 0 {
      return End;
    }
    var s1 := Apply(cfg, s, Event(0, Call));
    var s2 := Apply(cfg, s1, Event(0, FindRoom));
    var s3 := Apply(cfg, s2, Event(0, ConnectOk));
    var rest := TakeInTurn(cfg, s3, n, total + 1, k - 1);
    var last := Then(Event(0, ConnectOk), rest);
    assert Possible(cfg, s2, last) && Final(cfg, s2, last) == Final(cfg, s3, rest);
    r := Then(Event(0, Call), Then(Event(0, FindRoom), last));
  }

  /** Threads `from`, `from + 1`, ... all pass the capacity check before any of them connects. */
  lemma {:induction false} PassTheCheck(cfg: Config, s: State, n: nat, total: nat, from: nat) returns (r: Run)
    requires Shape(s, n, total, from) && total < cfg.maxConnections
    ensures Possible(cfg, s, r) && Shape(Final(cfg, s, r), n, total, n)
    decreases n - from
  {
    if from == n {
      return End;
    }
    var s1 := Apply(cfg, s, Event(from, Call));
    var s2 := Apply(cfg, s1, Event(from, FindRoom));
    var rest := PassTheCheck(cfg, s2, n, total, from + 1);
    r := Then(Event(from, Call), Then(Event(from, FindRoom), rest));
  }

  lemma {:induction false} AllConnect(cfg: Config, s: State, n: nat, total: nat, growing: nat) returns (r: Run)
    requires Shape(s, n, total, growing)
    ensures Possible(cfg, s, r) && Shape(Final(cfg, s, r), n, total + growing, 0)
    decreases growing
  {
    if growing == 0 {
      return End;
    }
    var rest := AllConnect(cfg, Apply(cfg, s, Event(growing - 1, ConnectOk)), n, total + 1, growing - 1);
    r := Then(Event(growing - 1, ConnectOk), rest);
  }

  lemma {:induction false} FewThreadsInside(cfg: Config, s: State, r: Run)
    requires Possible(cfg, s, r)
    ensures AtMostInside(cfg, s, r, |s.pcs|)
    decreases r
  {
    ConnectingAreInside(s.pcs);
    if r.Then? {
      FewThreadsInside(cfg, Apply(cfg, s, r.event), r.rest);
    }
  }

  /** Thread 0 is in its popping loop, all others outside, and every connection is idle. */
  predicate Popping(s: State, n: nat) {
    && WellFormed(s) && |s.pcs| == n > 0 && s.total == |s.idle| && s.pcs[0] == AtLoop(true)
    && forall t | 1 <= t < n :: s.pcs[t].Outside?
  }

  /** It finds every idle connection expired, and then fails to connect. */
  lemma {:induction false} ExpireAll(cfg: Config, s: State, n: nat) returns (r: Run)
    requires Popping(s, n) && cfg.maxConnections > 0
    ensures Possible(cfg, s, r) && Shape(Final(cfg, s, r), n, 0, 0)
    decreases |s.idle|
  {
    if s.idle == [] {
      r := FailToConnect(cfg, s, n);
      return;
    }
    var s1 := Apply(cfg, s, Event(0, Pop));
    var s2 := Apply(cfg, s1, Event(0, Expire));
    var rest := ExpireAll(cfg, s2, n);
    var last := Then(Event(0, Expire), rest);
    assert Possible(cfg, s1, last) && Final(cfg, s1, last) == Final(cfg, s2, rest);
    r := Then(Event(0, Pop), last);
  }

  lemma FailToConnect(cfg: Config, s: State, n: nat) returns (r: Run)
    requires Popping(s, n) && s.idle == [] && cfg.maxConnections > 0
    ensures Possible(cfg, s, r) && Shape(Final(cfg, s, r), n, 0, 0)
  {
    var s1 := Apply(cfg, s, Event(0, FindRoom));
    var s2 := Apply(cfg, s1, Event(0, ConnectFails));
    var s3 := Apply(cfg, s2, Event(0, GiveUp));
    var last := Then(Event(0, GiveUp), End);
    assert Possible(cfg, s2, last) && Final(cfg, s2, last) == s3;
    var two := Then(Event(0, ConnectFails), last);
    assert Possible(cfg, s1, two) && Final(cfg, s1, two) == s3;
    r := Then(Event(0, FindRoom), two);
  }

  /** From a pool without connections, as many as the bound allows. */
  lemma OvershootFromEmpty(cfg: Config, s: State, n: nat) returns (r: Run)
    requires Shape(s, n, 0, 0) && n > 0 && cfg.maxConnections > 0
    ensures Possible(cfg, s, r) && Final(cfg, s, r).total == cfg.maxConnections - 1 + n
  {
    var r1 := TakeInTurn(cfg, s, n, 0, cfg.maxConnections - 1);
    var s1 := Final(cfg, s, r1);
    var r2 := PassTheCheck(cfg, s1, n, cfg.maxConnections - 1, 0);
    var s2 := Final(cfg, s1, r2);
    var r3 := AllConnect(cfg, s2, n, cfg.maxConnections - 1, n);
    AppendRuns(cfg, s1, r2, r3);
    AppendRuns(cfg, s, r1, Append(r2, r3));
    r := Append(r1, Append(r2, r3));
  }

  lemma {:induction false} FirstConnsCount(n: nat)
    ensures |FirstConns(n)| == n
  {
    if n > 0 {
      FirstConnsCount(n - 1);
    }
  }

  /** From the pool as it starts, all its connections idle, through a pool without any. */
  lemma Overshoot(cfg: Config, threads: nat) returns (r: Run)
    requires cfg.maxConnections > 0 && threads > 0
    ensures var s := Init(cfg.minConnections, threads);
            Possible(cfg, s, r) && Final(cfg, s, r).total == cfg.maxConnections - 1 + threads
  {
    var s := Init(cfg.minConnections, threads);
    FirstConnsCount(cfg.minConnections);
    var s0 := Apply(cfg, s, Event(0, Call));
    var r1 := ExpireAll(cfg, s0, threads);
    var r2 := OvershootFromEmpty(cfg, Final(cfg, s0, r1), threads);
    AppendRuns(cfg, s0, r1, r2);
    r := Then(Event(0, Call), Append(r1, r2));
  }

  /** The bound is attained: for every minimum, every positive maximum and every number of threads there
      is an interleaving, from the pool with all its initial connections, that reaches it. */
  lemma BoundAttained(cfg: Config, threads: nat) returns (r: Run)
    requires cfg.maxConnections > 0 && threads > 0
    ensures var s := Init(cfg.minConnections, threads);
            && Possible(cfg, s, r) && AtMostInside(cfg, s, r, threads)
            && Final(cfg, s, r).total == Bound(cfg, threads)
  {
    r := End;
    if cfg.minConnections < cfg.maxConnections - 1 + threads {
      r := Overshoot(cfg, threads);
    }
    FewThreadsInside(cfg, Init(cfg.minConnections, threads), r);
  }
}
