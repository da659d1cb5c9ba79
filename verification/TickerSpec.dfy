/**
 The timer event queue of mbed/common/ticker_api.c on unbounded time: a queue sorted by due time, drained by
 the interrupt routine while the handlers of periodic events insert them again.
*/
module TickerSpec {
  import opened Common
  import opened Modular

  const TWO31: int := 0x8000_0000
  const TWO32: int := 0x1_0000_0000

  type Stamp = t: int | 0 <= t < TWO32

  /** The 32-bit counter value at time t. */
  function ToStamp(t: int): Stamp { t % TWO32 }

  /** `(int)(a - b)` on 32-bit unsigned operands. */
  function SignedDiff(a: Stamp, b: Stamp): int {
    var d := (a - b) % TWO32;
    if d < TWO31 then d else d - TWO32
  }

  /** Inside a window of 2^31 the wrapped comparison is the true one, across any wrap of the counter. */
  lemma WindowOrder(a: int, b: int)
    requires -TWO31 <= a - b < TWO31
    ensures SignedDiff(ToStamp(a), ToStamp(b)) == a - b
  {
    var qa, qb := a / TWO32, b / TWO32;
    assert a == qa * TWO32 + a % TWO32 && b == qb * TWO32 + b % TWO32;
    assert a % TWO32 - b % TWO32 == (a - b) + (qb - qa) * TWO32;
    ModShift(a - b, qb - qa);
    ModSmall(a - b);
  }

  lemma {:induction false} ModShift(x: int, k: int)
    ensures (x + k * TWO32) % TWO32 == x % TWO32
    decreases if k < 0 then -k else k
  {
    if k > 0 {
      ModShift(x, k - 1);
      assert (x + k * TWO32) == (x + (k - 1) * TWO32) + TWO32;
    } else if k < 0 {
      ModShift(x, k + 1);
      assert (x + k * TWO32) == (x + (k + 1) * TWO32) - TWO32;
    }
  }

  lemma ModSmall(x: int)
    requires -TWO32 < x < TWO32
    ensures x % TWO32 == if x >= 0 then x else x + TWO32
  {
  }

  // ---- The queue ----

  /** An event: when it is due, and for a Ticker the period after which its handler inserts it again. */
  datatype Ev<T> = Ev(id: T, due: int, repeat: bool, period: nat)

  predicate Sorted<T>(q: seq<Ev<T>>) {
    forall i, j | 0 <= i < j < |q| :: q[i].due <= q[j].due
  }

  predicate Unique<T(==)>(q: seq<Ev<T>>) {
    forall i, j | 0 <= i < j < |q| :: q[i].id != q[j].id
  }

  function Insert<T>(q: seq<Ev<T>>, e: Ev<T>): (r: seq<Ev<T>>)
    ensures |r| == |q| + 1
  {
    if q == [] || e.due < q[0].due then [e] + q else [q[0]] + Insert(q[1..], e)
  }

  /** The insertion point: behind everything due no later, before everything due later. */
  lemma {:induction false} InsertSplits<T>(q: seq<Ev<T>>, e: Ev<T>) returns (k: nat)
    requires Sorted(q)
    ensures k <= |q| && Insert(q, e) == q[..k] + [e] + q[k..]
    ensures (forall i | 0 <= i < k :: q[i].due <= e.due) && (forall i | k <= i < |q| :: e.due < q[i].due)
  {
    if q == [] || e.due < q[0].due {
      k := 0;
    } else {
      k := InsertSplits(q[1..], e);
      k := k + 1;
      assert q[..k] == [q[0]] + q[1..][..k - 1] && q[k..] == q[1..][k - 1..];
    }
  }

  lemma {:induction false} InsertAt<T>(q: seq<Ev<T>>, e: Ev<T>, k: nat)
    requires k <= |q| && forall i | 0 <= i < k :: q[i].due <= e.due
    requires k < |q| ==> e.due < q[k].due
    ensures Insert(q, e) == q[..k] + [e] + q[k..]
  {
    if k > 0 {
      InsertAt(q[1..], e, k - 1);
      assert q[..k] == [q[0]] + q[1..][..k - 1] && q[k..] == q[1..][k - 1..];
    }
  }

  lemma InsertSorted<T>(q: seq<Ev<T>>, e: Ev<T>)
    requires Sorted(q)
    ensures Sorted(Insert(q, e))
  {
    var k := InsertSplits(q, e);
    var r := Insert(q, e);
    assert forall i | 0 <= i < |r| :: r[i] == if i < k then q[i] else if i == k then e else q[i - 1];
  }

  lemma UniqueCons<T>(e: Ev<T>, q: seq<Ev<T>>)
    ensures Unique([e] + q) <==> Unique(q) && !Queued(q, e.id)
  {
    var r := [e] + q;
    assert forall i | 0 <= i < |q| :: r[i + 1] == q[i];
    if Unique(r) {
      assert forall i | 0 <= i < |q| :: r[0].id != q[i].id;
    }
  }

  lemma {:induction false} InsertQueued<T>(q: seq<Ev<T>>, e: Ev<T>, id: T)
    ensures Queued(Insert(q, e), id) <==> id == e.id || Queued(q, id)
  {
    if q == [] || e.due < q[0].due {
      QueuedCons(e, q, id);
    } else {
      InsertQueued(q[1..], e, id);
      QueuedCons(q[0], Insert(q[1..], e), id);
      QueuedCons(q[0], q[1..], id);
      assert q == [q[0]] + q[1..];
    }
  }

  lemma QueuedCons<T>(e: Ev<T>, q: seq<Ev<T>>, id: T)
    ensures Queued([e] + q, id) <==> id == e.id || Queued(q, id)
  {
    var r := [e] + q;
    assert r[0] == e && forall i | 0 <= i < |q| :: r[i + 1] == q[i];
  }

  lemma {:induction false} InsertUnique<T>(q: seq<Ev<T>>, e: Ev<T>)
    requires Unique(q) && !Queued(q, e.id)
    ensures Unique(Insert(q, e))
  {
    if q == [] || e.due < q[0].due {
      UniqueCons(e, q);
    } else {
      assert q == [q[0]] + q[1..];
      UniqueCons(q[0], q[1..]);
      QueuedCons(q[0], q[1..], e.id);
      InsertUnique(q[1..], e);
      InsertQueued(q[1..], e, q[0].id);
      UniqueCons(q[0], Insert(q[1..], e));
    }
  }

  lemma {:induction false} InsertMembers<T>(q: seq<Ev<T>>, e: Ev<T>, x: Ev<T>)
    ensures x in Insert(q, e) <==> x == e || x in q
  {
    if q != [] && !(e.due < q[0].due) {
      InsertMembers(q[1..], e, x);
    }
  }

  function Without<T(==)>(q: seq<Ev<T>>, id: T): seq<Ev<T>> {
    if q == [] then []
    else if q[0].id == id then q[1..]
    else [q[0]] + Without(q[1..], id)
  }

  /** Taking out an absent event changes nothing; a queued one leaves, and the others keep their order. */
  lemma {:induction false} WithoutSplits<T>(q: seq<Ev<T>>, id: T) returns (k: nat)
    ensures k <= |q| && (k == |q| <==> !Queued(q, id))
    ensures k < |q| ==> q[k].id == id && Without(q, id) == q[..k] + q[k + 1..]
    ensures k == |q| ==> Without(q, id) == q
    ensures forall i | 0 <= i < k :: q[i].id != id
  {
    if q == [] || q[0].id == id {
      k := 0;
    } else {
      k := WithoutSplits(q[1..], id);
      k := k + 1;
      assert k < |q| ==> q[..k] == [q[0]] + q[1..][..k - 1] && q[k + 1..] == q[1..][k..];
      assert forall i | 1 <= i < |q| :: q[i] == q[1..][i - 1];
    }
  }

  lemma WithoutAbsent<T>(q: seq<Ev<T>>, id: T)
    requires !Queued(q, id)
    ensures Without(q, id) == q
  {
    var k := WithoutSplits(q, id);
  }

  lemma {:induction false} WithoutMembers<T>(q: seq<Ev<T>>, id: T, x: Ev<T>)
    ensures x in Without(q, id) ==> x in q
    ensures x in q && x.id != id ==> x in Without(q, id)
  {
    if q != [] && q[0].id != id {
      WithoutMembers(q[1..], id, x);
    }
  }

  lemma WithoutSorted<T>(q: seq<Ev<T>>, id: T)
    requires Sorted(q)
    ensures Sorted(Without(q, id))
  {
    var k := WithoutSplits(q, id);
    var r := Without(q, id);
    assert forall i | 0 <= i < |r| :: r[i] == if i < k then q[i] else q[i + 1];
  }

  lemma {:induction false} WithoutQueued<T>(q: seq<Ev<T>>, id: T, x: T)
    requires x != id
    ensures Queued(Without(q, id), x) <==> Queued(q, x)
  {
    if q != [] {
      assert q == [q[0]] + q[1..];
      QueuedCons(q[0], q[1..], x);
      if q[0].id != id {
        WithoutQueued(q[1..], id, x);
        QueuedCons(q[0], Without(q[1..], id), x);
      }
    }
  }

  lemma {:induction false} WithoutUnique<T>(q: seq<Ev<T>>, id: T)
    requires Unique(q)
    ensures Unique(Without(q, id)) && !Queued(Without(q, id), id)
  {
    if q != [] {
      assert q == [q[0]] + q[1..];
      UniqueCons(q[0], q[1..]);
      if q[0].id != id {
        WithoutUnique(q[1..], id);
        WithoutQueued(q[1..], id, q[0].id);
        UniqueCons(q[0], Without(q[1..], id));
        QueuedCons(q[0], Without(q[1..], id), id);
      }
    }
  }

  predicate Queued<T(==)>(q: seq<Ev<T>>, id: T) {
    exists i | 0 <= i < |q| :: q[i].id == id
  }

  // ---- Draining ----

  /** Every periodic event that is due has a positive period. */
  predicate Positive<T>(q: seq<Ev<T>>, now: int) {
    forall i | 0 <= i < |q| && q[i].repeat && q[i].due <= now :: q[i].period > 0
  }

  predicate Due<T>(q: seq<Ev<T>>, now: int) { q != [] && q[0].due <= now }

  /** The moments at which an event fires while the clock stands at `now`. */
  function FireTimes<T>(e: Ev<T>, now: int): (times: seq<int>)
    requires e.repeat && e.due <= now ==> e.period > 0
    decreases now - e.due
  {
    if e.due > now then []
    else if e.repeat then [e.due] + FireTimes(Later(e), now)
    else [e.due]
  }

  /** How often it fires. */
  function Fires<T>(e: Ev<T>, now: int): nat
    requires e.repeat && e.due <= now ==> e.period > 0
  {
    |FireTimes(e, now)|
  }

  /** An event due at t with period d fires floor((now - t) / d) + 1 times, at t, t + d, t + 2d and so on. */
  lemma FireTimesExact<T>(e: Ev<T>, now: int)
    requires e.repeat && e.period > 0 && e.due <= now
    ensures Fires(e, now) == (now - e.due) / e.period + 1
    ensures forall k | 0 <= k < Fires(e, now) :: FireTimes(e, now)[k] == e.due + k * e.period <= now
  {
    FireCount(e, now);
    forall k | 0 <= k < Fires(e, now) ensures FireTimes(e, now)[k] == e.due + k * e.period <= now {
      FireTimeAt(e, now, k);
    }
  }

  lemma {:induction false} FireTimeAt<T>(e: Ev<T>, now: int, k: nat)
    requires e.repeat && e.period > 0 && k < Fires(e, now)
    ensures FireTimes(e, now)[k] == e.due + k * e.period <= now
    decreases k
  {
    if k > 0 {
      FireTimeAt(Later(e), now, k - 1);
      TimesPred(k, e.period);
    }
  }

  lemma {:induction false} FireCount<T>(e: Ev<T>, now: int)
    requires e.repeat && e.period > 0 && e.due <= now
    ensures Fires(e, now) == (now - e.due) / e.period + 1
    decreases now - e.due
  {
    var l := Later(e);
    if l.due <= now {
      FireCount(l, now);
      DivStep(now - e.due, e.period);
    } else {
      assert FireTimes(l, now) == [];
      assert FireTimes(e, now) == [e.due] + FireTimes(l, now);
      DivUnique(now - e.due, e.period, 0);
    }
  }

  lemma TimesPred(k: int, p: int)
    ensures (k - 1) * p == k * p - p
  {
  }

  lemma DivStep(d: int, p: int)
    requires 0 < p <= d
    ensures (d - p) / p == d / p - 1
  {
    var k := d / p;
    assert k * p <= d < k * p + p;
    TimesPred(k, p);
    DivUnique(d - p, p, k - 1);
  }

  function Later<T>(e: Ev<T>): Ev<T> { e.(due := e.due + e.period) }

  /** The event left when the drain is over. */
  function After<T>(e: Ev<T>, now: int): (r: Ev<T>)
    requires e.repeat && e.due <= now ==> e.period > 0
    ensures r.id == e.id && r.repeat == e.repeat && r.period == e.period && (e.repeat || e.due > now ==> r.due > now)
    decreases now - e.due
  {
    if e.due <= now && e.repeat then After(Later(e), now) else e
  }

  /** One round of the interrupt loop on a queue whose head is due. */
  function Round<T>(q: seq<Ev<T>>): seq<Ev<T>>
    requires q != []
  {
    if q[0].repeat then Insert(q[1..], Later(q[0])) else q[1..]
  }

  /** The firings the queue still owes. */
  function Outstanding<T>(q: seq<Ev<T>>, now: int): nat
    requires Positive(q, now)
  {
    if q == [] then 0 else Fires(q[0], now) + Outstanding(q[1..], now)
  }

  lemma {:induction false} InsertOutstanding<T>(q: seq<Ev<T>>, e: Ev<T>, now: int)
    requires Positive(q, now) && (e.repeat && e.due <= now ==> e.period > 0)
    ensures Positive(Insert(q, e), now)
    ensures Outstanding(Insert(q, e), now) == Outstanding(q, now) + Fires(e, now)
  {
    if q == [] || e.due < q[0].due {
      assert ([e] + q)[1..] == q;
    } else {
      InsertOutstanding(q[1..], e, now);
    }
  }

  /** The measure of the interrupt loop: each round brings the firings still owed down by exactly one. */
  lemma RoundOutstanding<T>(q: seq<Ev<T>>, now: int)
    requires Positive(q, now) && Due(q, now)
    ensures Positive(Round(q), now) && Outstanding(Round(q), now) == Outstanding(q, now) - 1
  {
    if q[0].repeat {
      InsertOutstanding(q[1..], Later(q[0]), now);
    }
  }

  // ---- What a callback of the application may do ----

  /** Ticker::setup or Timeout::setup, and detach. */
  datatype Action<T> = Setup(id: T, t: nat, repeat: bool) | Detach(id: T)

  /** A call that a callback makes, and when. */
  datatype Timed<T> = Timed(now: int, a: Action<T>)

  function Act<T(==)>(q: seq<Ev<T>>, now: int, a: Action<T>): seq<Ev<T>> {
    match a
    case Setup(id, t, repeat) => Insert(Without(q, id), Ev(id, now + t, repeat, t))
    case Detach(id) => Without(q, id)
  }

  function Acts<T(==)>(q: seq<Ev<T>>, acts: seq<Timed<T>>): seq<Ev<T>>
    decreases |acts|
  {
    if acts == [] then q else Acts(Act(q, acts[0].now, acts[0].a), acts[1..])
  }

  /** No Ticker gets the period 0. */
  predicate Lawful<T>(acts: seq<Timed<T>>) {
    forall j | 0 <= j < |acts| && acts[j].a.Setup? && acts[j].a.repeat :: acts[j].a.t > 0
  }

  /** Events are set only to be due after `end`. */
  predicate Polite<T>(acts: seq<Timed<T>>, end: int) {
    forall j | 0 <= j < |acts| && acts[j].a.Setup? :: acts[j].now + acts[j].a.t > end
  }

  /** The calls are made one after the other, between two moments. */
  predicate Between<T>(acts: seq<Timed<T>>, from: int, to: int) {
    && (forall j | 0 <= j < |acts| :: from <= acts[j].now <= to)
    && (forall j, k | 0 <= j < k < |acts| :: acts[j].now <= acts[k].now)
  }

  /**
   How time goes by during a drain, and what its callbacks do: clock(i) is what the loop reads in its i-th round, no
   reading is later than `end`, and acts(i) are the calls of the i-th callback.
  */
  datatype Course<T> = Course(clock: nat -> int, end: int, acts: nat -> seq<Timed<T>>, quiet: nat)

  ghost predicate Timely<T>(c: Course<T>) {
    && (forall i: nat :: c.clock(i) <= c.clock(i + 1))
    && (forall i: nat :: c.clock(i) <= c.end)
    && (forall i: nat :: Between(c.acts(i), c.clock(i), c.clock(i + 1)))
  }

  /** From the quiet-th firing on, callbacks set nothing that is due before the end: else they could go on for ever. */
  ghost predicate Settles<T>(c: Course<T>) {
    forall i: nat :: Lawful(c.acts(i)) && (i >= c.quiet ==> Polite(c.acts(i), c.end))
  }

  /** How many firings lie ahead whose callbacks may set events that are due before the end. */
  function Unsettled<T>(c: Course<T>, i: nat): nat {
    if i < c.quiet then c.quiet - i else 0
  }

  lemma {:induction false} ClockAdvances<T>(c: Course<T>, i: nat, j: nat)
    requires Timely(c) && i <= j
    ensures c.clock(i) <= c.clock(j)
    decreases j
  {
    if i < j {
      ClockAdvances(c, i, j - 1);
      assert c.clock(j - 1) <= c.clock(j - 1 + 1);
    }
  }

  lemma ActKeeps<T>(q: seq<Ev<T>>, now: int, a: Action<T>)
    requires Sorted(q) && Unique(q)
    ensures Sorted(Act(q, now, a)) && Unique(Act(q, now, a))
  {
    WithoutSorted(q, a.id);
    WithoutUnique(q, a.id);
    if a.Setup? {
      InsertSorted(Without(q, a.id), Ev(a.id, now + a.t, a.repeat, a.t));
      InsertUnique(Without(q, a.id), Ev(a.id, now + a.t, a.repeat, a.t));
    }
  }

  lemma {:induction false} ActsKeep<T>(q: seq<Ev<T>>, acts: seq<Timed<T>>)
    requires Sorted(q) && Unique(q)
    ensures Sorted(Acts(q, acts)) && Unique(Acts(q, acts))
    decreases |acts|
  {
    if acts != [] {
      ActKeeps(q, acts[0].now, acts[0].a);
      ActsKeep(Act(q, acts[0].now, acts[0].a), acts[1..]);
    }
  }

  lemma {:induction false} WithoutOwes<T>(q: seq<Ev<T>>, now: int, id: T)
    requires Positive(q, now)
    ensures Positive(Without(q, id), now) && Outstanding(Without(q, id), now) <= Outstanding(q, now)
  {
    if q != [] && q[0].id != id {
      WithoutOwes(q[1..], now, id);
    }
  }

  lemma ActOwes<T>(q: seq<Ev<T>>, now: int, a: Action<T>, end: int)
    requires Positive(q, end) && (a.Setup? && a.repeat ==> a.t > 0)
    ensures Positive(Act(q, now, a), end)
    ensures (a.Setup? ==> now + a.t > end) ==> Outstanding(Act(q, now, a), end) <= Outstanding(q, end)
  {
    WithoutOwes(q, end, a.id);
    if a.Setup? {
      InsertOutstanding(Without(q, a.id), Ev(a.id, now + a.t, a.repeat, a.t), end);
    }
  }

  /** A callback that sets nothing to be due before the end adds nothing to the firings still owed. */
  lemma {:induction false} ActsOwe<T>(q: seq<Ev<T>>, acts: seq<Timed<T>>, end: int)
    requires Positive(q, end) && Lawful(acts)
    ensures Positive(Acts(q, acts), end)
    ensures Polite(acts, end) ==> Outstanding(Acts(q, acts), end) <= Outstanding(q, end)
    decreases |acts|
  {
    if acts != [] {
      ActOwes(q, acts[0].now, acts[0].a, end);
      ActsOwe(Act(q, acts[0].now, acts[0].a), acts[1..], end);
    }
  }

  predicate Names<T(==)>(acts: seq<Timed<T>>, id: T) { exists j | 0 <= j < |acts| :: acts[j].a.id == id }

  lemma ActSpares<T>(q: seq<Ev<T>>, now: int, a: Action<T>, id: T)
    requires a.id != id
    ensures Queued(Act(q, now, a), id) <==> Queued(q, id)
    ensures forall e: Ev<T> | e in q && e.id == id :: e in Act(q, now, a)
  {
    WithoutQueued(q, a.id, id);
    forall e: Ev<T> | e in q && e.id == id ensures e in Act(q, now, a) {
      WithoutMembers(q, a.id, e);
      if a.Setup? {
        InsertMembers(Without(q, a.id), Ev(a.id, now + a.t, a.repeat, a.t), e);
      }
    }
    if a.Setup? {
      InsertQueued(Without(q, a.id), Ev(a.id, now + a.t, a.repeat, a.t), id);
    }
  }

  /** Events a callback does not name stay as they are. */
  lemma {:induction false} ActsSpare<T>(q: seq<Ev<T>>, acts: seq<Timed<T>>, id: T)
    requires !Names(acts, id)
    ensures Queued(Acts(q, acts), id) <==> Queued(q, id)
    ensures forall e: Ev<T> | e in q && e.id == id :: e in Acts(q, acts)
    decreases |acts|
  {
    if acts != [] {
      ActSpares(q, acts[0].now, acts[0].a, id);
      ActsSpare(Act(q, acts[0].now, acts[0].a), acts[1..], id);
    }
  }

  lemma {:induction false} ActsConcat<T>(q: seq<Ev<T>>, a: seq<Timed<T>>, b: seq<Timed<T>>)
    ensures Acts(q, a + b) == Acts(Acts(q, a), b)
    decreases |a|
  {
    if a == [] {
      assert a + b == b;
    } else {
      assert (a + b)[0] == a[0] && (a + b)[1..] == a[1..] + b;
      ActsConcat(Act(q, a[0].now, a[0].a), a[1..], b);
    }
  }

  lemma ActTakesEffect<T>(q: seq<Ev<T>>, now: int, a: Action<T>)
    requires Unique(q)
    ensures a.Detach? ==> !Queued(Act(q, now, a), a.id)
    ensures a.Setup? ==> Ev(a.id, now + a.t, a.repeat, a.t) in Act(q, now, a)
  {
    WithoutUnique(q, a.id);
    if a.Setup? {
      var e := Ev(a.id, now + a.t, a.repeat, a.t);
      InsertMembers(Without(q, a.id), e, e);
    }
  }

  /**
   The last word of a callback on an event counts, also on the one whose handler has just queued itself again: a
   detached one is gone, one that was set is due at its new time only.
  */
  lemma LastWordCounts<T>(q: seq<Ev<T>>, before: seq<Timed<T>>, x: Timed<T>, after: seq<Timed<T>>)
    requires Sorted(q) && Unique(q) && q != [] && !Names(after, x.a.id)
    ensures var r := RoundWith(q, before + [x] + after);
            && Unique(r) && (x.a.Detach? ==> !Queued(r, x.a.id))
            && (x.a.Setup? ==> Ev(x.a.id, x.now + x.a.t, x.a.repeat, x.a.t) in r)
  {
    var q0, acts := Round(q), before + [x] + after;
    var q1 := Acts(q0, before);
    var q2 := Act(q1, x.now, x.a);
    RoundSorted(q);
    RoundUnique(q);
    ActsKeep(q0, before);
    ActsKeep(q0, acts);
    ActsConcat(q0, before + [x], after);
    ActsConcat(q0, before, [x]);
    assert [x][1..] == [] && Acts(q1, [x]) == q2;
    ActTakesEffect(q1, x.now, x.a);
    ActsSpare(q2, after, x.a.id);
  }

  // ---- The loop ----

  /** The head fires, queues itself again if it is periodic, and then its callback runs. */
  function RoundWith<T(==)>(q: seq<Ev<T>>, acts: seq<Timed<T>>): seq<Ev<T>>
    requires q != []
  {
    Acts(Round(q), acts)
  }

  lemma RoundWithOwes<T>(q: seq<Ev<T>>, now: int, acts: seq<Timed<T>>, end: int)
    requires Positive(q, end) && Due(q, now) && now <= end && Lawful(acts)
    ensures Positive(RoundWith(q, acts), end)
    ensures Polite(acts, end) ==> Outstanding(RoundWith(q, acts), end) < Outstanding(q, end)
  {
    RoundOutstanding(q, end);
    ActsOwe(Round(q), acts, end);
  }

  /** What a drain calls, in order, and the queue it leaves. */
  datatype Drained<T> = Drained(log: seq<(T, int)>, rest: seq<Ev<T>>)

  function Drain<T(==)>(q: seq<Ev<T>>, c: Course<T>, i: nat): Drained<T>
    requires Positive(q, c.end) && Timely(c) && Settles(c)
    decreases Unsettled(c, i), Outstanding(q, c.end)
  {
    if !Due(q, c.clock(i)) then Drained([], q)
    else
      RoundWithOwes(q, c.clock(i), c.acts(i), c.end);
      var d := Drain(RoundWith(q, c.acts(i)), c, i + 1);
      Drained([(q[0].id, q[0].due)] + d.log, d.rest)
  }

  /** Whatever callbacks set to times after the end and cancel, no more handlers run than firings are owed by then. */
  lemma {:induction false} DrainCount<T>(q: seq<Ev<T>>, c: Course<T>, i: nat)
    requires Positive(q, c.end) && Timely(c) && Settles(c) && i >= c.quiet
    ensures |Drain(q, c, i).log| <= Outstanding(q, c.end)
    decreases Outstanding(q, c.end)
  {
    if Due(q, c.clock(i)) {
      RoundWithOwes(q, c.clock(i), c.acts(i), c.end);
      DrainCount(RoundWith(q, c.acts(i)), c, i + 1);
    }
  }

  // ---- While the clock stands still the loop stops exactly when no due event has period 0 ----

  /** The queue after at most n rounds of the loop, whether or not the loop would ever end. */
  function Rounds<T>(q: seq<Ev<T>>, now: int, n: nat): seq<Ev<T>>
    decreases n
  {
    if n == 0 || !Due(q, now) then q else Rounds(Round(q), now, n - 1)
  }

  lemma {:induction false} NoneOutstanding<T>(q: seq<Ev<T>>, now: int)
    requires Sorted(q) && !Due(q, now)
    ensures Positive(q, now) && Outstanding(q, now) == 0
  {
    if q != [] {
      NoneOutstanding(q[1..], now);
    }
  }

  /** Nobody calls anything and the clock stands still. */
  ghost predicate Still<T>(c: Course<T>, now: int) {
    c.end == now && forall i: nat :: c.clock(i) == now && c.acts(i) == []
  }

  /** With positive periods the loop runs exactly as many rounds as there are firings outstanding. */
  lemma {:induction false} PositiveStops<T>(q: seq<Ev<T>>, now: int, c: Course<T>, i: nat)
    requires Sorted(q) && Positive(q, now) && Still(c, now)
    ensures Timely(c) && Settles(c) && !Due(Rounds(q, now, Outstanding(q, now)), now)
    ensures Rounds(q, now, Outstanding(q, now)) == Drain(q, c, i).rest
    ensures |Drain(q, c, i).log| == Outstanding(q, now)
    decreases Outstanding(q, now)
  {
    if Due(q, now) {
      RoundOutstanding(q, now);
      RoundSorted(q);
      PositiveStops(Round(q), now, c, i + 1);
    } else {
      NoneOutstanding(q, now);
    }
  }

  lemma {:induction false} ZeroPeriodSpins<T>(q: seq<Ev<T>>, now: int, z: Ev<T>, n: nat)
    requires Sorted(q) && z in q && z.repeat && z.period == 0 && z.due <= now
    ensures Due(Rounds(q, now, n), now)
    decreases n
  {
    ZeroPeriodStays(q, now, z);
    if n > 0 {
      RoundSorted(q);
      ZeroPeriodSpins(Round(q), now, z, n - 1);
    }
  }

  lemma ZeroPeriodStays<T>(q: seq<Ev<T>>, now: int, z: Ev<T>)
    requires Sorted(q) && z in q && z.repeat && z.period == 0 && z.due <= now
    ensures Due(q, now) && z in Round(q)
  {
    var i :| 0 <= i < |q| && q[i] == z;
    assert q[0].due <= q[i].due;
    RoundMembers(q, z);
    assert i > 0 ==> q[1..][i - 1] == z;
  }

  lemma DrainStopsExactly<T>(q: seq<Ev<T>>, now: int)
    requires Sorted(q)
    ensures (exists n: nat :: !Due(Rounds(q, now, n), now)) <==> Positive(q, now)
  {
    if Positive(q, now) {
      PositiveStops(q, now, Course(_ => now, now, _ => [], 0), 0);
    } else {
      var i :| 0 <= i < |q| && q[i].repeat && q[i].due <= now && q[i].period <= 0;
      forall n: nat ensures Due(Rounds(q, now, n), now) {
        ZeroPeriodSpins(q, now, q[i], n);
      }
    }
  }

  // ---- What a drain does ----

  lemma RoundSorted<T>(q: seq<Ev<T>>)
    requires Sorted(q) && q != []
    ensures Sorted(Round(q))
    ensures Round(q) != [] ==> Round(q)[0].due >= q[0].due
  {
    if q[0].repeat {
      InsertSorted(q[1..], Later(q[0]));
    }
  }

  lemma RoundUnique<T>(q: seq<Ev<T>>)
    requires Sorted(q) && Unique(q) && q != []
    ensures Unique(Round(q))
  {
    if q[0].repeat {
      InsertUnique(q[1..], Later(q[0]));
    }
  }

  /** In time order from `from` on, and none before the loop has read a time at which it is due. */
  ghost predicate Chronological<T>(log: seq<(T, int)>, from: int, c: Course<T>, i: nat) {
    && (forall k: nat | k < |log| :: from <= log[k].1 <= c.clock(i + k))
    && (forall j, k | 0 <= j < k < |log| :: log[j].1 <= log[k].1)
  }

  /** No event was due before `from`. */
  predicate NoneBefore<T>(q: seq<Ev<T>>, from: int) { forall i | 0 <= i < |q| :: q[i].due >= from }

  lemma ActNoneBefore<T>(q: seq<Ev<T>>, now: int, a: Action<T>, from: int)
    requires NoneBefore(q, from) && from <= now
    ensures NoneBefore(Act(q, now, a), from)
  {
    var r := Act(q, now, a);
    forall i | 0 <= i < |r| ensures r[i].due >= from {
      if a.Setup? {
        InsertMembers(Without(q, a.id), Ev(a.id, now + a.t, a.repeat, a.t), r[i]);
      }
      WithoutMembers(q, a.id, r[i]);
    }
  }

  lemma {:induction false} ActsNoneBefore<T>(q: seq<Ev<T>>, acts: seq<Timed<T>>, from: int)
    requires NoneBefore(q, from) && forall j | 0 <= j < |acts| :: from <= acts[j].now
    ensures NoneBefore(Acts(q, acts), from)
    decreases |acts|
  {
    if acts != [] {
      ActNoneBefore(q, acts[0].now, acts[0].a, from);
      ActsNoneBefore(Act(q, acts[0].now, acts[0].a), acts[1..], from);
    }
  }

  lemma RoundWithKeeps<T>(q: seq<Ev<T>>, now: int, acts: seq<Timed<T>>)
    requires Sorted(q) && Unique(q) && Due(q, now) && forall j | 0 <= j < |acts| :: now <= acts[j].now
    ensures Sorted(RoundWith(q, acts)) && Unique(RoundWith(q, acts))
    ensures NoneBefore(RoundWith(q, acts), q[0].due)
  {
    RoundSorted(q);
    RoundUnique(q);
    ActsKeep(Round(q), acts);
    ActsNoneBefore(Round(q), acts, q[0].due);
  }

  /** One round of a drain. */
  lemma RoundKeeps<T>(q: seq<Ev<T>>, c: Course<T>, i: nat)
    requires Sorted(q) && Unique(q) && Positive(q, c.end) && Timely(c) && Settles(c) && Due(q, c.clock(i))
    ensures var r := RoundWith(q, c.acts(i));
            && Sorted(r) && Unique(r) && Positive(r, c.end) && NoneBefore(r, q[0].due)
            && (i >= c.quiet ==> Outstanding(r, c.end) < Outstanding(q, c.end))
  {
    assert c.clock(i) <= c.clock(i + 1);
    assert Between(c.acts(i), c.clock(i), c.clock(i + 1));
    RoundWithOwes(q, c.clock(i), c.acts(i), c.end);
    RoundWithKeeps(q, c.clock(i), c.acts(i));
  }

  /** What a drain calls is chronological; what it leaves is in order and not due at the last reading. */
  ghost predicate InOrder<T>(d: Drained<T>, from: int, c: Course<T>, i: nat) {
    && Chronological(d.log, from, c, i)
    && Sorted(d.rest) && Unique(d.rest)
    && NoneBefore(d.rest, c.clock(i + |d.log|) + 1)
  }

  lemma LogGrows<T>(x: (T, int), log: seq<(T, int)>, from: int, c: Course<T>, i: nat)
    requires Chronological(log, x.1, c, i + 1) && from <= x.1 <= c.clock(i)
    ensures Chronological([x] + log, from, c, i)
  {
    forall k: nat | k < |[x] + log| ensures from <= ([x] + log)[k].1 <= c.clock(i + k) {
      if k > 0 {
        assert ([x] + log)[k] == log[k - 1] && c.clock(i + 1 + (k - 1)) == c.clock(i + k);
      }
    }
  }

  lemma NothingDue<T>(q: seq<Ev<T>>, from: int, c: Course<T>, i: nat)
    requires Sorted(q) && Unique(q) && !Due(q, c.clock(i))
    ensures InOrder(Drained([], q), from, c, i)
  {
  }

  lemma RoundInOrder<T>(x: (T, int), r: Drained<T>, from: int, c: Course<T>, i: nat)
    requires InOrder(r, x.1, c, i + 1) && from <= x.1 <= c.clock(i)
    ensures InOrder(Drained([x] + r.log, r.rest), from, c, i)
  {
    LogGrows(x, r.log, from, c, i);
    assert i + |[x] + r.log| == i + 1 + |r.log|;
  }

  /**
   However time goes by, and whatever is inserted again or set, cancelled or set anew by callbacks on the way,
   handlers run in time order and only once due; what stays is not due at the last reading.
  */
  lemma {:induction false} DrainOrder<T>(q: seq<Ev<T>>, c: Course<T>, i: nat, from: int)
    requires Sorted(q) && Unique(q) && Positive(q, c.end) && Timely(c) && Settles(c) && NoneBefore(q, from)
    ensures InOrder(Drain(q, c, i), from, c, i)
    decreases Unsettled(c, i), Outstanding(q, c.end)
  {
    if Due(q, c.clock(i)) {
      RoundKeeps(q, c, i);
      DrainOrder(RoundWith(q, c.acts(i)), c, i + 1, q[0].due);
      RoundInOrder((q[0].id, q[0].due), Drain(RoundWith(q, c.acts(i)), c, i + 1), from, c, i);
    } else {
      NothingDue(q, from, c, i);
    }
  }

  function TimesOf<T(==)>(log: seq<(T, int)>, id: T): seq<int> {
    if log == [] then []
    else (if log[0].0 == id then [log[0].1] else []) + TimesOf(log[1..], id)
  }

  lemma RoundMembers<T>(q: seq<Ev<T>>, x: Ev<T>)
    requires q != []
    ensures x in Round(q) <==> (q[0].repeat && x == Later(q[0])) || x in q[1..]
  {
    if q[0].repeat {
      InsertMembers(q[1..], Later(q[0]), x);
    }
  }

  /** No callback sets or cancels the event. */
  ghost predicate Spared<T>(c: Course<T>, id: T) { forall i: nat :: !Names(c.acts(i), id) }

  lemma {:induction false} AbsentNeverFires<T>(q: seq<Ev<T>>, c: Course<T>, i: nat, id: T)
    requires Positive(q, c.end) && Timely(c) && Settles(c) && Spared(c, id) && !Queued(q, id)
    ensures TimesOf(Drain(q, c, i).log, id) == [] && !Queued(Drain(q, c, i).rest, id)
    decreases Unsettled(c, i), Outstanding(q, c.end)
  {
    if Due(q, c.clock(i)) {
      RoundWithOwes(q, c.clock(i), c.acts(i), c.end);
      forall j | 0 <= j < |Round(q)| ensures Round(q)[j].id != id {
        RoundMembers(q, Round(q)[j]);
      }
      ActsSpare(Round(q), c.acts(i), id);
      AbsentNeverFires(RoundWith(q, c.acts(i)), c, i + 1, id);
    }
  }

  /** What a first round that is due contributes. */
  lemma DrainUnfolds<T>(q: seq<Ev<T>>, c: Course<T>, i: nat, id: T)
    requires Positive(q, c.end) && Timely(c) && Settles(c) && Due(q, c.clock(i))
    ensures Positive(RoundWith(q, c.acts(i)), c.end)
    ensures var d, r := Drain(q, c, i), Drain(RoundWith(q, c.acts(i)), c, i + 1);
            && d.rest == r.rest && |d.log| == 1 + |r.log|
            && TimesOf(d.log, id) == (if q[0].id == id then [q[0].due] else []) + TimesOf(r.log, id)
  {
    RoundWithOwes(q, c.clock(i), c.acts(i), c.end);
    var d, r := Drain(q, c, i), Drain(RoundWith(q, c.acts(i)), c, i + 1);
    assert d.log[0] == (q[0].id, q[0].due) && d.log[1..] == r.log;
  }

  /** Where the event e is after the first round. */
  lemma AfterRound<T>(q: seq<Ev<T>>, acts: seq<Timed<T>>, e: Ev<T>)
    requires Sorted(q) && Unique(q) && q != [] && !Names(acts, e.id) && e in q
    ensures e != q[0] ==> e.id != q[0].id && e in RoundWith(q, acts)
    ensures e == q[0] && e.repeat ==> Later(e) in RoundWith(q, acts)
    ensures e == q[0] && !e.repeat ==> !Queued(RoundWith(q, acts), e.id)
  {
    RoundMembers(q, e);
    RoundMembers(q, Later(e));
    ActsSpare(Round(q), acts, e.id);
    assert q == [q[0]] + q[1..];
  }

  /** The last reading of the clock in a drain that starts with round i. */
  function LastReading<T(==)>(q: seq<Ev<T>>, c: Course<T>, i: nat): int
    requires Positive(q, c.end) && Timely(c) && Settles(c)
  {
    c.clock(i + |Drain(q, c, i).log|)
  }

  lemma LastReadingBounds<T>(q: seq<Ev<T>>, c: Course<T>, i: nat)
    requires Positive(q, c.end) && Timely(c) && Settles(c)
    ensures c.clock(i) <= LastReading(q, c, i) <= c.end
  {
    ClockAdvances(c, i, i + |Drain(q, c, i).log|);
  }

  /** In a drain over at `now` the event e has fired at its own times, and waits at its next one or is gone. */
  ghost predicate Fired<T>(d: Drained<T>, e: Ev<T>, now: int)
    requires e.repeat && e.due <= now ==> e.period > 0
  {
    && TimesOf(d.log, e.id) == FireTimes(e, now)
    && (e.repeat || e.due > now ==> After(e, now) in d.rest)
    && (!e.repeat && e.due <= now ==> !Queued(d.rest, e.id))
  }

  lemma FiredLater<T>(d: Drained<T>, r: Drained<T>, e: Ev<T>, now: int)
    requires e.repeat && e.period > 0 && e.due <= now && Fired(r, Later(e), now)
    requires d.rest == r.rest && TimesOf(d.log, e.id) == [e.due] + TimesOf(r.log, e.id)
    ensures Fired(d, e, now)
  {
    assert FireTimes(e, now) == [e.due] + FireTimes(Later(e), now);
    assert After(e, now) == After(Later(e), now);
  }

  /**
   Each queued event that no callback touches fires exactly at its own times up to the last reading, and afterwards
   waits at its next one (or is gone).
  */
  lemma {:induction false} DrainFires<T>(q: seq<Ev<T>>, c: Course<T>, i: nat, e: Ev<T>)
    requires Sorted(q) && Unique(q) && Positive(q, c.end) && Timely(c) && Settles(c) && Spared(c, e.id) && e in q
    ensures c.clock(i) <= LastReading(q, c, i) <= c.end && Fired(Drain(q, c, i), e, LastReading(q, c, i))
    decreases Unsettled(c, i), Outstanding(q, c.end)
  {
    LastReadingBounds(q, c, i);
    if Due(q, c.clock(i)) {
      RoundKeeps(q, c, i);
      AfterRound(q, c.acts(i), e);
      if e != q[0] {
        DrainFires(RoundWith(q, c.acts(i)), c, i + 1, e);
        OthersFire(q, c, i, e);
      } else if e.repeat {
        DrainFires(RoundWith(q, c.acts(i)), c, i + 1, Later(e));
        HeadFires(q, c, i, e);
      } else {
        OnceFires(q, c, i, e);
      }
    } else {
      NoneFires(q, c, i, e);
    }
  }

  lemma NoneFires<T>(q: seq<Ev<T>>, c: Course<T>, i: nat, e: Ev<T>)
    requires Sorted(q) && Positive(q, c.end) && Timely(c) && Settles(c) && !Due(q, c.clock(i)) && e in q
    ensures LastReading(q, c, i) == c.clock(i) < e.due && Fired(Drain(q, c, i), e, c.clock(i))
  {
    var k :| 0 <= k < |q| && q[k] == e;
    assert q[0].due <= q[k].due;
  }

  lemma OthersFire<T>(q: seq<Ev<T>>, c: Course<T>, i: nat, e: Ev<T>)
    requires Positive(q, c.end) && Timely(c) && Settles(c) && Due(q, c.clock(i)) && e in q && e.id != q[0].id
    requires Positive(RoundWith(q, c.acts(i)), c.end) && LastReading(q, c, i) <= c.end
    requires var r, now := RoundWith(q, c.acts(i)), LastReading(RoundWith(q, c.acts(i)), c, i + 1);
             now <= c.end && Fired(Drain(r, c, i + 1), e, now)
    ensures Fired(Drain(q, c, i), e, LastReading(q, c, i))
  {
    DrainShifts(q, c, i);
    DrainUnfolds(q, c, i, e.id);
  }

  lemma HeadFires<T>(q: seq<Ev<T>>, c: Course<T>, i: nat, e: Ev<T>)
    requires Positive(q, c.end) && Timely(c) && Settles(c) && Due(q, c.clock(i)) && e == q[0] && e.repeat
    requires Positive(RoundWith(q, c.acts(i)), c.end) && c.clock(i) <= LastReading(q, c, i) <= c.end
    requires var r, now := RoundWith(q, c.acts(i)), LastReading(RoundWith(q, c.acts(i)), c, i + 1);
             now <= c.end && Fired(Drain(r, c, i + 1), Later(e), now)
    ensures Fired(Drain(q, c, i), e, LastReading(q, c, i))
  {
    DrainShifts(q, c, i);
    DrainUnfolds(q, c, i, e.id);
    FiredLater(Drain(q, c, i), Drain(RoundWith(q, c.acts(i)), c, i + 1), e, LastReading(q, c, i));
  }

  lemma OnceFires<T>(q: seq<Ev<T>>, c: Course<T>, i: nat, e: Ev<T>)
    requires Positive(q, c.end) && Timely(c) && Settles(c) && Due(q, c.clock(i)) && e == q[0] && !e.repeat
    requires Spared(c, e.id) && c.clock(i) <= LastReading(q, c, i)
    requires Positive(RoundWith(q, c.acts(i)), c.end) && !Queued(RoundWith(q, c.acts(i)), e.id)
    ensures Fired(Drain(q, c, i), e, LastReading(q, c, i))
  {
    DrainShifts(q, c, i);
    DrainUnfolds(q, c, i, e.id);
    AbsentNeverFires(RoundWith(q, c.acts(i)), c, i + 1, e.id);
  }

  lemma DrainShifts<T>(q: seq<Ev<T>>, c: Course<T>, i: nat)
    requires Positive(q, c.end) && Timely(c) && Settles(c) && Due(q, c.clock(i))
    ensures Positive(RoundWith(q, c.acts(i)), c.end)
    ensures Drain(q, c, i).rest == Drain(RoundWith(q, c.acts(i)), c, i + 1).rest
    ensures LastReading(q, c, i) == LastReading(RoundWith(q, c.acts(i)), c, i + 1)
  {
    RoundWithOwes(q, c.clock(i), c.acts(i), c.end);
    var d := Drain(RoundWith(q, c.acts(i)), c, i + 1);
    assert |Drain(q, c, i).log| == 1 + |d.log|;
  }

  // ---- Without a handler ----

  /** As long as no event has been constructed and installed its handler, due events leave the queue unheard. */
  function Unheard<T>(q: seq<Ev<T>>, c: Course<T>, i: nat): seq<Ev<T>>
    decreases |q|
  {
    if Due(q, c.clock(i)) then Unheard(q[1..], c, i + 1) else q
  }

  /** Exactly the first n are due at that reading. */
  ghost predicate Splits<T>(q: seq<Ev<T>>, n: nat, reading: int) {
    n <= |q| && forall k | 0 <= k < |q| :: k < n <==> q[k].due <= reading
  }

  lemma SplitsLater<T>(q: seq<Ev<T>>, n: nat, reading: int)
    requires q != [] && Splits(q[1..], n, reading) && q[0].due <= reading
    ensures Splits(q, n + 1, reading)
  {
    forall k | 0 <= k < |q| ensures k < n + 1 <==> q[k].due <= reading {
      if k > 0 {
        assert q[1..][k - 1] == q[k];
      }
    }
  }

  lemma UnheardRound<T>(q: seq<Ev<T>>, c: Course<T>, i: nat, n: nat)
    requires Timely(c) && Due(q, c.clock(i))
    requires Splits(q[1..], n, c.clock(i + 1 + n)) && Unheard(q[1..], c, i + 1) == q[1..][n..]
    ensures Splits(q, n + 1, c.clock(i + (n + 1))) && Unheard(q, c, i) == q[n + 1..]
  {
    assert i + 1 + n == i + (n + 1) && q[1..][n..] == q[n + 1..];
    ClockAdvances(c, i, i + (n + 1));
    SplitsLater(q, n, c.clock(i + (n + 1)));
  }

  /** The back of the queue is left, and it is exactly what is due after the last reading. */
  lemma {:induction false} UnheardExactly<T>(q: seq<Ev<T>>, c: Course<T>, i: nat) returns (n: nat)
    requires Sorted(q) && Timely(c)
    ensures Splits(q, n, c.clock(i + n)) && Unheard(q, c, i) == q[n..]
    decreases |q|
  {
    n := 0;
    if Due(q, c.clock(i)) {
      n := UnheardExactly(q[1..], c, i + 1);
      UnheardRound(q, c, i, n);
      n := n + 1;
    }
  }

  // ---- The window ----

  /** Events are due between lo and `ahead` from now. */
  predicate Spans<T>(q: seq<Ev<T>>, lo: int, now: int, ahead: nat) {
    forall i | 0 <= i < |q| :: lo <= q[i].due <= now + ahead && q[i].period <= ahead
  }

  /** No event is overdue by more than `late`, none lies more than `ahead` in the future. */
  predicate Within<T>(q: seq<Ev<T>>, now: int, late: nat, ahead: nat) { Spans(q, now - late, now, ahead) }

  /** All of it, and any time between now and `ahead` later, lies in one window of the 32-bit clock. */
  lemma WithinOneWindow<T>(q: seq<Ev<T>>, now: int, late: nat, ahead: nat, due: int)
    requires Within(q, now, late, ahead) && late + ahead < TWO31 && now <= due <= now + ahead
    ensures forall i | 0 <= i < |q| :: -TWO31 <= due - q[i].due < TWO31
  {
  }

  lemma WithoutSpans<T>(q: seq<Ev<T>>, id: T, lo: int, now: int, ahead: nat)
    requires Spans(q, lo, now, ahead)
    ensures Spans(Without(q, id), lo, now, ahead)
  {
    var k := WithoutSplits(q, id);
  }

  lemma RoundSpans<T>(q: seq<Ev<T>>, lo: int, now: int, ahead: nat)
    requires Spans(q, lo, now, ahead) && Due(q, now)
    ensures Spans(Round(q), lo, now, ahead)
  {
    forall i | 0 <= i < |Round(q)|
      ensures lo <= Round(q)[i].due <= now + ahead && Round(q)[i].period <= ahead
    {
      RoundMembers(q, Round(q)[i]);
    }
  }

  predicate InReach<T>(acts: seq<Timed<T>>, ahead: nat) {
    forall j | 0 <= j < |acts| && acts[j].a.Setup? :: acts[j].a.t <= ahead
  }

  ghost predicate AllInReach<T>(c: Course<T>, ahead: nat) {
    forall i: nat :: InReach(c.acts(i), ahead)
  }

  lemma ActSpans<T>(q: seq<Ev<T>>, lo: int, now: int, a: Action<T>, ahead: nat)
    requires Spans(q, lo, now, ahead) && lo <= now && (a.Setup? ==> a.t <= ahead)
    ensures Spans(Act(q, now, a), lo, now, ahead)
  {
    WithoutSpans(q, a.id, lo, now, ahead);
    if a.Setup? {
      var e := Ev(a.id, now + a.t, a.repeat, a.t);
      forall i | 0 <= i < |Insert(Without(q, a.id), e)|
        ensures Insert(Without(q, a.id), e)[i] == e || Insert(Without(q, a.id), e)[i] in Without(q, a.id)
      {
        InsertMembers(Without(q, a.id), e, Insert(Without(q, a.id), e)[i]);
      }
    }
  }

  lemma {:induction false} ActsSpan<T>(q: seq<Ev<T>>, lo: int, from: int, to: int, acts: seq<Timed<T>>, ahead: nat)
    requires Spans(q, lo, from, ahead) && lo <= from <= to && Between(acts, from, to) && InReach(acts, ahead)
    ensures Spans(Acts(q, acts), lo, to, ahead)
    decreases |acts|
  {
    if acts != [] {
      var x := acts[0];
      assert Spans(q, lo, x.now, ahead);
      ActSpans(q, lo, x.now, x.a, ahead);
      ActsSpan(Act(q, x.now, x.a), lo, x.now, to, acts[1..], ahead);
    }
  }

  // ---- A drain under way ----

  /** Time goes by and callbacks behave as they should, and the drain is over in time. */
  ghost predicate Allowed<T>(c: Course<T>, late: nat, ahead: nat) {
    Timely(c) && Settles(c) && AllInReach(c, ahead) && c.end - late <= c.clock(0)
  }

  /** Before round |log| of a drain: log and queue will come to what the whole drain comes to. */
  ghost predicate Draining<T>(q: seq<Ev<T>>, late: nat, ahead: nat, c: Course<T>,
                              log: seq<(T, int)>, goal: Drained<T>)
  {
    && Allowed(c, late, ahead) && Positive(q, c.end) && Spans(q, c.end - late, c.clock(|log|), ahead)
    && Drained(log + Drain(q, c, |log|).log, Drain(q, c, |log|).rest) == goal
  }

  lemma DrainBegins<T>(q: seq<Ev<T>>, late: nat, ahead: nat, c: Course<T>)
    requires Allowed(c, late, ahead) && Positive(q, c.end) && Spans(q, c.end - late, c.clock(0), ahead)
    ensures Draining(q, late, ahead, c, [], Drain(q, c, 0))
  {
    assert [] + Drain(q, c, 0).log == Drain(q, c, 0).log;
  }

  lemma DrainEnds<T>(q: seq<Ev<T>>, late: nat, ahead: nat, c: Course<T>, log: seq<(T, int)>, goal: Drained<T>)
    requires Draining(q, late, ahead, c, log, goal) && !Due(q, c.clock(|log|))
    ensures Drained(log, q) == goal
  {
    assert log + [] == log;
  }

  lemma DrainStep<T>(q: seq<Ev<T>>, c: Course<T>, log: seq<(T, int)>, goal: Drained<T>)
    requires Positive(q, c.end) && Timely(c) && Settles(c) && Due(q, c.clock(|log|))
    requires var d := Drain(q, c, |log|); Drained(log + d.log, d.rest) == goal
    ensures Positive(RoundWith(q, c.acts(|log|)), c.end)
    ensures var d := Drain(RoundWith(q, c.acts(|log|)), c, |log| + 1);
            Drained(log + [(q[0].id, q[0].due)] + d.log, d.rest) == goal
  {
    RoundWithOwes(q, c.clock(|log|), c.acts(|log|), c.end);
    var d := Drain(RoundWith(q, c.acts(|log|)), c, |log| + 1);
    assert Drain(q, c, |log|).log == [(q[0].id, q[0].due)] + d.log;
    Associates(log, [(q[0].id, q[0].due)], d.log);
  }

  /** What the loop may rely on in round i. */
  lemma RoundWithin<T>(q: seq<Ev<T>>, late: nat, ahead: nat, c: Course<T>, i: nat)
    requires Allowed(c, late, ahead) && Spans(q, c.end - late, c.clock(i), ahead)
    ensures c.end - late <= c.clock(i) <= c.end && Within(q, c.clock(i), late, ahead)
  {
    ClockAdvances(c, 0, i);
  }

  lemma RoundTimes<T>(c: Course<T>, i: nat)
    requires Timely(c)
    ensures c.clock(i) <= c.clock(i + 1) <= c.end && Between(c.acts(i), c.clock(i), c.clock(i + 1))
  {
  }

  /** The first call of a callback finds everything in the window, and so will the next. */
  lemma CallWithin<T>(q: seq<Ev<T>>, lo: int, from: int, to: int, x: Timed<T>, late: nat, ahead: nat)
    requires Spans(q, lo, from, ahead) && to - late <= lo <= from <= x.now <= to && InReach([x], ahead)
    ensures Within(q, x.now, late, ahead) && Spans(Act(q, x.now, x.a), lo, x.now, ahead)
  {
    assert [x][0] == x && Spans(q, lo, x.now, ahead);
    ActSpans(q, lo, x.now, x.a, ahead);
  }

  /** One round of the interrupt loop keeps all it needs. */
  lemma RoundFacts<T>(q: seq<Ev<T>>, late: nat, ahead: nat, c: Course<T>, log: seq<(T, int)>, goal: Drained<T>)
    requires Draining(q, late, ahead, c, log, goal) && Due(q, c.clock(|log|))
    ensures Draining(RoundWith(q, c.acts(|log|)), late, ahead, c, log + [(q[0].id, q[0].due)], goal)
    ensures |log| >= c.quiet ==> Outstanding(RoundWith(q, c.acts(|log|)), c.end) < Outstanding(q, c.end)
  {
    var now := c.clock(|log|);
    RoundWithOwes(q, now, c.acts(|log|), c.end);
    RoundWithin(q, late, ahead, c, |log|);
    RoundSpans(q, c.end - late, now, ahead);
    ActsSpan(Round(q), c.end - late, now, c.clock(|log| + 1), c.acts(|log|), ahead);
    DrainStep(q, c, log, goal);
  }

  // ---- Whole runs ----

  /** A call of the application, the timer interrupt with its callbacks, and time going by. */
  datatype Op<T> = Call(a: Action<T>) | Irq(c: Course<T>) | Wait(d: nat)

  datatype Sys<T> = Sys(q: seq<Ev<T>>, now: int)

  predicate Periodic<T>(q: seq<Ev<T>>) { forall i | 0 <= i < |q| && q[i].repeat :: q[i].period > 0 }

  /** Every precondition of TickerQueue's methods, for a bound on the interrupt latency and on the delays. */
  ghost predicate Inv<T>(s: Sys<T>, late: nat, ahead: nat) {
    late + ahead < TWO31 && Sorted(s.q) && Unique(s.q) && Within(s.q, s.now, late, ahead) && Periodic(s.q)
  }

  /** No event gets older than `late` until then. */
  predicate InTime<T>(s: Sys<T>, until: int, late: nat) { s.q != [] ==> until <= s.q[0].due + late }

  /** What is asked of the callers, of the callbacks, and of the interrupt latency. */
  ghost predicate Fair<T>(s: Sys<T>, op: Op<T>, late: nat, ahead: nat) {
    match op
    case Call(a) => a.Setup? ==> a.t <= ahead && (a.repeat ==> a.t > 0)
    case Irq(c) => Allowed(c, late, ahead) && s.now <= c.clock(0) && InTime(s, c.end, late)
    case Wait(d) => InTime(s, s.now + d, late)
  }

  ghost function Next<T>(s: Sys<T>, op: Op<T>, late: nat, ahead: nat): Sys<T>
    requires Inv(s, late, ahead) && Fair(s, op, late, ahead)
  {
    match op
    case Call(a) => s.(q := Act(s.q, s.now, a))
    case Irq(c) => Sys(Drain(s.q, c, 0).rest, LastReading(s.q, c, 0))
    case Wait(d) => s.(now := s.now + d)
  }

  lemma ActPeriodic<T>(q: seq<Ev<T>>, now: int, a: Action<T>)
    requires Periodic(q) && (a.Setup? && a.repeat ==> a.t > 0)
    ensures Periodic(Act(q, now, a))
  {
    var r := Act(q, now, a);
    forall i | 0 <= i < |r| && r[i].repeat ensures r[i].period > 0 {
      if a.Setup? {
        InsertMembers(Without(q, a.id), Ev(a.id, now + a.t, a.repeat, a.t), r[i]);
      }
      WithoutMembers(q, a.id, r[i]);
    }
  }

  lemma {:induction false} ActsPeriodic<T>(q: seq<Ev<T>>, acts: seq<Timed<T>>)
    requires Periodic(q) && Lawful(acts)
    ensures Periodic(Acts(q, acts))
    decreases |acts|
  {
    if acts != [] {
      ActPeriodic(q, acts[0].now, acts[0].a);
      ActsPeriodic(Act(q, acts[0].now, acts[0].a), acts[1..]);
    }
  }

  lemma RoundPeriodic<T>(q: seq<Ev<T>>)
    requires Periodic(q) && q != []
    ensures Periodic(Round(q))
  {
    forall i | 0 <= i < |Round(q)| && Round(q)[i].repeat ensures Round(q)[i].period > 0 {
      RoundMembers(q, Round(q)[i]);
    }
  }

  lemma {:induction false} DrainSpans<T>(q: seq<Ev<T>>, c: Course<T>, i: nat, late: nat, ahead: nat)
    requires Allowed(c, late, ahead) && Positive(q, c.end) && Periodic(q)
    requires Spans(q, c.end - late, c.clock(i), ahead)
    ensures Periodic(Drain(q, c, i).rest)
    ensures Spans(Drain(q, c, i).rest, c.end - late, LastReading(q, c, i), ahead)
    decreases Unsettled(c, i), Outstanding(q, c.end)
  {
    if Due(q, c.clock(i)) {
      var r := RoundWith(q, c.acts(i));
      RoundWithOwes(q, c.clock(i), c.acts(i), c.end);
      RoundWithin(q, late, ahead, c, i);
      RoundSpans(q, c.end - late, c.clock(i), ahead);
      ActsSpan(Round(q), c.end - late, c.clock(i), c.clock(i + 1), c.acts(i), ahead);
      RoundPeriodic(q);
      ActsPeriodic(Round(q), c.acts(i));
      DrainSpans(r, c, i + 1, late, ahead);
      DrainShifts(q, c, i);
    }
  }

  lemma IrqKeeps<T>(s: Sys<T>, c: Course<T>, late: nat, ahead: nat)
    requires Inv(s, late, ahead) && Fair(s, Irq(c), late, ahead)
    ensures Inv(Next(s, Irq(c), late, ahead), late, ahead)
    ensures NoneBefore(Next(s, Irq(c), late, ahead).q, Next(s, Irq(c), late, ahead).now + 1)
  {
    assert Spans(s.q, c.end - late, c.clock(0), ahead);
    DrainOrder(s.q, c, 0, c.end - late);
    DrainSpans(s.q, c, 0, late, ahead);
  }

  lemma NextKeeps<T>(s: Sys<T>, op: Op<T>, late: nat, ahead: nat)
    requires Inv(s, late, ahead) && Fair(s, op, late, ahead)
    ensures Inv(Next(s, op, late, ahead), late, ahead)
  {
    match op
    case Call(a) =>
      ActKeeps(s.q, s.now, a);
      ActSpans(s.q, s.now - late, s.now, a, ahead);
      ActPeriodic(s.q, s.now, a);
    case Irq(c) => IrqKeeps(s, c, late, ahead);
    case Wait(d) =>
  }

  ghost predicate FairRun<T>(s: Sys<T>, ops: seq<Op<T>>, late: nat, ahead: nat)
    requires Inv(s, late, ahead)
    decreases |ops|
  {
    ops == [] || (Fair(s, ops[0], late, ahead)
                  && (NextKeeps(s, ops[0], late, ahead); FairRun(Next(s, ops[0], late, ahead), ops[1..], late, ahead)))
  }

  ghost function RunOf<T>(s: Sys<T>, ops: seq<Op<T>>, late: nat, ahead: nat): (r: Sys<T>)
    requires Inv(s, late, ahead) && FairRun(s, ops, late, ahead)
    ensures Inv(r, late, ahead)
    decreases |ops|
  {
    if ops == [] then s
    else
      NextKeeps(s, ops[0], late, ahead);
      RunOf(Next(s, ops[0], late, ahead), ops[1..], late, ahead)
  }

  /**
   An interrupt buys the clock `late` more ticks from its last reading, whatever is queued and whatever the callbacks
   set: a prompt timer never breaks the window.
  */
  lemma IrqBuysTime<T>(s: Sys<T>, c: Course<T>, d: nat, late: nat, ahead: nat)
    requires Inv(s, late, ahead) && Fair(s, Irq(c), late, ahead) && d <= late
    ensures Fair(Next(s, Irq(c), late, ahead), Op<T>.Wait(d), late, ahead)
  {
    IrqKeeps(s, c, late, ahead);
  }
}
