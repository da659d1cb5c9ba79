/**
 Whole runs of the timer event queue: what each event has done by the end of one, and the heap list that serves one.
*/
module TickerRun {
  import opened Common
  import opened TickerSpec
  import opened TickerQueue

  /** What an operation calls. */
  ghost function LogOf<T>(s: Sys<T>, op: Op<T>, late: nat, ahead: nat): seq<(T, int)>
    requires Inv(s, late, ahead) && Fair(s, op, late, ahead)
  {
    if op.Irq? then Drain(s.q, op.c, 0).log else []
  }

  /** All handlers a run calls, in order. */
  ghost function RunLog<T>(s: Sys<T>, ops: seq<Op<T>>, late: nat, ahead: nat): seq<(T, int)>
    requires Inv(s, late, ahead) && FairRun(s, ops, late, ahead)
    decreases |ops|
  {
    if ops == [] then []
    else
      NextKeeps(s, ops[0], late, ahead);
      LogOf(s, ops[0], late, ahead) + RunLog(Next(s, ops[0], late, ahead), ops[1..], late, ahead)
  }

  /** The last time an interrupt of the run has read the clock; `from` if there is none. */
  ghost function SeenAt<T>(s: Sys<T>, ops: seq<Op<T>>, late: nat, ahead: nat, from: int): int
    requires Inv(s, late, ahead) && FairRun(s, ops, late, ahead)
    decreases |ops|
  {
    if ops == [] then from
    else
      NextKeeps(s, ops[0], late, ahead);
      SeenAt(Next(s, ops[0], late, ahead), ops[1..], late, ahead,
             if ops[0].Irq? then LastReading(s.q, ops[0].c, 0) else from)
  }

  /** Neither the application nor a callback sets or cancels the event. */
  ghost predicate Leaves<T>(op: Op<T>, id: T) {
    match op
    case Call(a) => a.id != id
    case Irq(c) => Spared(c, id)
    case Wait(_) => true
  }

  ghost predicate AllLeave<T>(ops: seq<Op<T>>, id: T) { forall k | 0 <= k < |ops| :: Leaves(ops[k], id) }

  lemma TimesCons<T>(x: (T, int), log: seq<(T, int)>, id: T)
    ensures TimesOf([x] + log, id) == (if x.0 == id then [x.1] else []) + TimesOf(log, id)
  {
    assert ([x] + log)[1..] == log;
  }

  lemma {:induction false} TimesConcat<T>(a: seq<(T, int)>, b: seq<(T, int)>, id: T)
    ensures TimesOf(a + b, id) == TimesOf(a, id) + TimesOf(b, id)
    decreases |a|
  {
    if a == [] {
      assert a + b == b;
    } else {
      var x, rest := a[0], a[1..];
      assert a == [x] + rest;
      Associates([x], rest, b);
      TimesCons(x, rest, id);
      TimesCons(x, rest + b, id);
      TimesConcat(rest, b, id);
      Associates(if x.0 == id then [x.1] else [], TimesOf(rest, id), TimesOf(b, id));
    }
  }

  // ---- The times of one event over two stretches ----

  lemma {:induction false} TimesSplit<T>(e: Ev<T>, r: int, now: int)
    requires r <= now && (e.repeat ==> e.period > 0)
    ensures e.repeat || e.due > r ==> FireTimes(e, now) == FireTimes(e, r) + FireTimes(After(e, r), now)
    ensures e.repeat || e.due > r ==> After(e, now) == After(After(e, r), now)
    ensures !e.repeat && e.due <= r ==> FireTimes(e, now) == FireTimes(e, r)
    decreases r - e.due
  {
    if e.due <= r && e.repeat {
      TimesSplit(Later(e), r, now);
      Associates([e.due], FireTimes(Later(e), r), FireTimes(After(e, r), now));
    } else if e.due > r {
      assert [] + FireTimes(e, now) == FireTimes(e, now);
    }
  }

  // ---- One event over a run ----

  lemma SeenLater<T>(s: Sys<T>, c: Course<T>, late: nat, ahead: nat)
    requires Inv(s, late, ahead) && Fair(s, Irq(c), late, ahead)
    ensures Positive(s.q, c.end) && s.now <= LastReading(s.q, c, 0) == Next(s, Irq(c), late, ahead).now
  {
    LastReadingBounds(s.q, c, 0);
  }

  lemma {:induction false} SeenAtLeast<T>(s: Sys<T>, ops: seq<Op<T>>, late: nat, ahead: nat, from: int)
    requires Inv(s, late, ahead) && FairRun(s, ops, late, ahead) && from <= s.now
    ensures from <= SeenAt(s, ops, late, ahead, from) <= RunOf(s, ops, late, ahead).now
    decreases |ops|
  {
    if ops != [] {
      var n := Next(s, ops[0], late, ahead);
      NextKeeps(s, ops[0], late, ahead);
      if ops[0].Irq? {
        SeenLater(s, ops[0].c, late, ahead);
        SeenAtLeast(n, ops[1..], late, ahead, LastReading(s.q, ops[0].c, 0));
      } else {
        SeenAtLeast(n, ops[1..], late, ahead, from);
      }
    }
  }

  lemma AbsentStep<T>(s: Sys<T>, op: Op<T>, late: nat, ahead: nat, id: T)
    requires Inv(s, late, ahead) && Fair(s, op, late, ahead) && Leaves(op, id) && !Queued(s.q, id)
    ensures TimesOf(LogOf(s, op, late, ahead), id) == [] && !Queued(Next(s, op, late, ahead).q, id)
  {
    match op
    case Call(a) => ActSpares(s.q, s.now, a, id);
    case Irq(c) => AbsentNeverFires(s.q, c, 0, id);
    case Wait(_) =>
  }

  lemma {:induction false} AbsentStays<T>(s: Sys<T>, ops: seq<Op<T>>, late: nat, ahead: nat, id: T)
    requires Inv(s, late, ahead) && FairRun(s, ops, late, ahead) && AllLeave(ops, id) && !Queued(s.q, id)
    ensures TimesOf(RunLog(s, ops, late, ahead), id) == [] && !Queued(RunOf(s, ops, late, ahead).q, id)
    decreases |ops|
  {
    if ops != [] {
      var n := Next(s, ops[0], late, ahead);
      NextKeeps(s, ops[0], late, ahead);
      assert Leaves(ops[0], id);
      AbsentStep(s, ops[0], late, ahead, id);
      AbsentStays(n, ops[1..], late, ahead, id);
      TimesConcat(LogOf(s, ops[0], late, ahead), RunLog(n, ops[1..], late, ahead), id);
    }
  }

  /** By `seen` the event has fired at its own times, and waits at its next one or is gone. */
  ghost predicate DoneBy<T>(log: seq<(T, int)>, rest: seq<Ev<T>>, e: Ev<T>, seen: int) {
    && (e.repeat ==> e.period > 0)
    && TimesOf(log, e.id) == FireTimes(e, seen)
    && if e.repeat || e.due > seen then After(e, seen) in rest else !Queued(rest, e.id)
  }

  lemma DoneLater<T>(first: seq<(T, int)>, log: seq<(T, int)>, rest: seq<Ev<T>>, e: Ev<T>, r: int, seen: int)
    requires (e.repeat ==> e.period > 0) && (e.repeat || e.due > r) && r <= seen
    requires TimesOf(first, e.id) == FireTimes(e, r) && DoneBy(log, rest, After(e, r), seen)
    ensures DoneBy(first + log, rest, e, seen)
  {
    TimesSplit(e, r, seen);
    TimesConcat(first, log, e.id);
  }

  lemma DoneAlready<T>(first: seq<(T, int)>, log: seq<(T, int)>, rest: seq<Ev<T>>, e: Ev<T>, r: int, seen: int)
    requires !e.repeat && e.due <= r <= seen
    requires TimesOf(first, e.id) == FireTimes(e, r) && TimesOf(log, e.id) == [] && !Queued(rest, e.id)
    ensures DoneBy(first + log, rest, e, seen)
  {
    TimesSplit(e, r, seen);
    TimesConcat(first, log, e.id);
  }

  /**
   Over any fair run an event that nobody sets or cancels any more fires exactly at its own times up to the last
   reading of the clock by an interrupt, and then waits at its next one; a Timeout that has fired is gone.
  */
  lemma {:induction false} RunFires<T>(s: Sys<T>, ops: seq<Op<T>>, late: nat, ahead: nat, e: Ev<T>, from: int)
    requires Inv(s, late, ahead) && FairRun(s, ops, late, ahead) && AllLeave(ops, e.id)
    requires e in s.q && from < e.due && from <= s.now
    ensures DoneBy(RunLog(s, ops, late, ahead), RunOf(s, ops, late, ahead).q, e, SeenAt(s, ops, late, ahead, from))
    decreases |ops|
  {
    if ops != [] {
      var op, n := ops[0], Next(s, ops[0], late, ahead);
      NextKeeps(s, op, late, ahead);
      assert Leaves(op, e.id);
      match op
      case Call(a) => {
        ActSpares(s.q, s.now, a, e.id);
        RunFires(n, ops[1..], late, ahead, e, from);
        assert [] + RunLog(n, ops[1..], late, ahead) == RunLog(n, ops[1..], late, ahead);
      }
      case Irq(c) => FiresOn(s, c, ops, late, ahead, e);
      case Wait(_) => {
        RunFires(n, ops[1..], late, ahead, e, from);
        assert [] + RunLog(n, ops[1..], late, ahead) == RunLog(n, ops[1..], late, ahead);
      }
    }
  }

  /** The first interrupt of a run. */
  lemma IrqFires<T>(s: Sys<T>, c: Course<T>, late: nat, ahead: nat, e: Ev<T>)
    requires Inv(s, late, ahead) && Fair(s, Irq(c), late, ahead) && Spared(c, e.id) && e in s.q
    ensures (e.repeat ==> e.period > 0) && Positive(s.q, c.end)
    ensures var r, d := LastReading(s.q, c, 0), Drain(s.q, c, 0);
            && s.now <= r == Next(s, Irq(c), late, ahead).now && Fired(d, e, r)
            && d.rest == Next(s, Irq(c), late, ahead).q && d.log == LogOf(s, Irq(c), late, ahead)
  {
    SeenLater(s, c, late, ahead);
    DrainFires(s.q, c, 0, e);
  }

  lemma {:induction false} FiresOn<T>(s: Sys<T>, c: Course<T>, ops: seq<Op<T>>, late: nat, ahead: nat, e: Ev<T>)
    requires Inv(s, late, ahead) && FairRun(s, ops, late, ahead) && AllLeave(ops, e.id)
    requires e in s.q && (e.repeat ==> e.period > 0) && ops != [] && ops[0] == Irq(c)
    ensures DoneBy(RunLog(s, ops, late, ahead), RunOf(s, ops, late, ahead).q, e,
                   SeenAt(s, ops, late, ahead, s.now))
    decreases |ops|, 0
  {
    NextKeeps(s, ops[0], late, ahead);
    assert Leaves(ops[0], e.id);
    IrqFires(s, c, late, ahead, e);
    var n, r := Next(s, ops[0], late, ahead), LastReading(s.q, c, 0);
    var log, rest := LogOf(s, ops[0], late, ahead), RunLog(n, ops[1..], late, ahead);
    SeenAtLeast(n, ops[1..], late, ahead, r);
    var seen, last := SeenAt(n, ops[1..], late, ahead, r), RunOf(n, ops[1..], late, ahead).q;
    if e.repeat || e.due > r {
      RunFires(n, ops[1..], late, ahead, After(e, r), r);
      DoneLater(log, rest, last, e, r, seen);
    } else {
      AbsentStays(n, ops[1..], late, ahead, e.id);
      DoneAlready(log, rest, last, e, r, seen);
    }
  }

  /** In particular an event set in a run and named by nobody afterwards. */
  lemma SetThenFires<T>(s: Sys<T>, a: Action<T>, ops: seq<Op<T>>, late: nat, ahead: nat)
    requires Inv(s, late, ahead) && a.Setup? && Fair(s, Op<T>.Call(a), late, ahead) && AllLeave(ops, a.id)
    requires Inv(Next(s, Call(a), late, ahead), late, ahead)
    requires FairRun(Next(s, Call(a), late, ahead), ops, late, ahead)
    ensures var n, e := Next(s, Call(a), late, ahead), Ev(a.id, s.now + a.t, a.repeat, a.t);
            && e in n.q
            && DoneBy(RunLog(n, ops, late, ahead), RunOf(n, ops, late, ahead).q, e,
                      SeenAt(n, ops, late, ahead, s.now - 1))
  {
    ActTakesEffect(s.q, s.now, a);
    RunFires(Next(s, Call(a), late, ahead), ops, late, ahead, Ev(a.id, s.now + a.t, a.repeat, a.t), s.now - 1);
  }

  // ---- The heap list over a run ----

  /** The calls name events of this queue. */
  ghost predicate Fit(op: Op<Event>, repr: set<Event>) {
    match op
    case Call(a) => UsableOne(a, repr)
    case Irq(c) => AllUsable(c, repr)
    case Wait(_) => true
  }

  ghost predicate AllFit(ops: seq<Op<Event>>, repr: set<Event>) { forall k | 0 <= k < |ops| :: Fit(ops[k], repr) }

  /** The queue is what the run has come to; the timer has been read at `now`. */
  ghost predicate Serves(x: Queue, s: Sys<Event>)
    reads x, x.repr
  {
    x.Valid() && x.AtRest() && x.handled && x.evs == s.q
  }

  /** One operation. */
  method Perform(x: Queue, op: Op<Event>, now: int, ghost late: nat, ghost ahead: nat)
    returns (later: int, ghost log: seq<(Event, int)>)
    requires Serves(x, Sys(x.evs, now)) && Inv(Sys(x.evs, now), late, ahead) && Fit(op, x.repr)
    requires Fair(Sys(x.evs, now), op, late, ahead)
    modifies x`head, x`compare, x`evs, x`repr, x.repr`timestamp, x.repr`next, x.repr`delay
    ensures var s := old(Sys(x.evs, now));
            && Serves(x, Next(s, op, late, ahead)) && later == Next(s, op, late, ahead).now
            && log == LogOf(s, op, late, ahead)
    ensures x.repr == old(x.repr)
  {
    later, log := now, [];
    match op
    case Call(a) => x.Perform(a, now, late, ahead);
    case Irq(c) => {
      var fired;
      fired, log := x.IrqHandler(c, late, ahead);
      later := c.clock(fired);
    }
    case Wait(d) => later := now + d;
  }

  /** Any fair run on a queue: the list, the clock and the calls are what the specification says. */
  method Serve(x: Queue, ops: seq<Op<Event>>, now: int, ghost late: nat, ghost ahead: nat)
    returns (later: int, ghost log: seq<(Event, int)>)
    requires Serves(x, Sys(x.evs, now)) && Inv(Sys(x.evs, now), late, ahead) && AllFit(ops, x.repr)
    requires FairRun(Sys(x.evs, now), ops, late, ahead)
    modifies x`head, x`compare, x`evs, x`repr, x.repr`timestamp, x.repr`next, x.repr`delay
    ensures var s := old(Sys(x.evs, now));
            && Serves(x, RunOf(s, ops, late, ahead)) && later == RunOf(s, ops, late, ahead).now
            && log == RunLog(s, ops, late, ahead)
    ensures x.repr == old(x.repr)
    decreases |ops|
  {
    later, log := now, [];
    if ops != [] {
      ghost var rest;
      NextKeeps(Sys(x.evs, now), ops[0], late, ahead);
      later, log := Perform(x, ops[0], now, late, ahead);
      later, rest := Serve(x, ops[1..], later, late, ahead);
      log := log + rest;
    }
  }
}
