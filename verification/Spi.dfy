/**
 The SPI transaction queue: mbed/api/CircularBuffer.h and the asynchronous transfers of mbed/common/SPI.cpp,
 for a single SPI object, with interrupts at any moment and callbacks that call transfer again.
*/
module Spi {
  import opened Common
  import opened Modular
  import opened Rings

  // ---- CircularBuffer ----

  /** The most recent n elements pushed and not popped. */
  function Pushed<T>(c: seq<T>, n: nat, x: T): seq<T>
    requires 0 < n
  {
    if |c| >= n then c[1..] + [x] else c + [x]
  }

  datatype BufferOp<T> = Push(x: T) | Pop | Reset

  function BufferRun<T>(ops: seq<BufferOp<T>>, n: nat): seq<T>
    requires 0 < n
  {
    if ops == [] then []
    else
      var c := BufferRun(ops[..|ops| - 1], n);
      match ops[|ops| - 1]
      case Push(x) => Pushed(c, n, x)
      case Pop => if c == [] then [] else c[1..]
      case Reset => []
  }

  /** The elements pushed since the last reset, in order. */
  function Pushes<T>(ops: seq<BufferOp<T>>): seq<T> {
    if ops == [] then []
    else
      var p := Pushes(ops[..|ops| - 1]);
      match ops[|ops| - 1]
      case Push(x) => p + [x]
      case Pop => p
      case Reset => []
  }

  /** How many of them have gone again: popped, or overwritten by a push into a full buffer. */
  function Gone<T>(ops: seq<BufferOp<T>>, n: nat): nat {
    if ops == [] then 0
    else
      var before := ops[..|ops| - 1];
      var g := Gone(before, n);
      match ops[|ops| - 1]
      case Push(_) => if |Pushes(before)| >= g + n then g + 1 else g
      case Pop => if |Pushes(before)| > g then g + 1 else g
      case Reset => 0
  }

  /** Whatever is pushed, popped and overwritten, the buffer holds the latest pushes, at most n, oldest first. */
  lemma {:induction false} HoldsTheLatest<T>(ops: seq<BufferOp<T>>, n: nat)
    requires 0 < n
    ensures |BufferRun(ops, n)| <= n && Gone(ops, n) <= |Pushes(ops)|
    ensures BufferRun(ops, n) == Pushes(ops)[Gone(ops, n)..]
  {
    if ops != [] {
      HoldsTheLatest(ops[..|ops| - 1], n);
    }
  }

  /** How many elements the indices and the flag stand for. */
  function Count(head: nat, tail: nat, full: bool, size: nat): nat
    requires head < size && tail < size
  {
    if full then size else if tail <= head then head - tail else size - tail + head
  }

  /** The slot push writes to lies m elements behind the new tail, and m + 1 elements are there afterwards. */
  lemma CountAfterPush(head: nat, tail: nat, full: bool, size: nat, t: nat, h: nat)
    requires head < size && tail < size && (full ==> head == tail)
    requires t == (if full then (tail + 1) % size else tail) && h == (head + 1) % size
    ensures var m := if full then size - 1 else Count(head, tail, full, size);
            m < size && head == (t + m) % size && t < size && Count(h, t, full || h == t, size) == m + 1
  {
    ModUnique(head, size, 0, head);
    ModUnique(tail, size, 0, tail);
    ModNext(head, size);
    if full {
      if t + (size - 1) == head {
        ModUnique(t + (size - 1), size, 0, head);
      } else {
        ModUnique(t + (size - 1), size, 1, head);
      }
    } else if head < tail {
      ModUnique(tail + (size - tail + head), size, 1, head);
    }
  }

  /** A push on the level of cells and indices. */
  lemma PushExact<T>(cells: seq<T>, head: nat, tail: nat, full: bool, x: T, t: nat, h: nat)
    requires head < |cells| && tail < |cells| && (full ==> head == tail)
    requires t == (if full then (tail + 1) % |cells| else tail) && h == (head + 1) % |cells|
    ensures From(cells[head := x], t, Count(h, t, full || h == t, |cells|))
         == Pushed(From(cells, tail, Count(head, tail, full, |cells|)), |cells|, x)
  {
    var n := Count(head, tail, full, |cells|);
    CountAfterPush(head, tail, full, |cells|, t, h);
    if full {
      PushFull(cells, tail, x, t);
    } else {
      PushBehind(cells, head, tail, x, n);
    }
  }

  lemma PushBehind<T>(cells: seq<T>, head: nat, tail: nat, x: T, n: nat)
    requires n < |cells| && head == (tail + n) % |cells|
    ensures From(cells[head := x], tail, n + 1) == Pushed(From(cells, tail, n), |cells|, x)
  {
    StoreAppends(cells, tail, n, x);
  }

  lemma PushFull<T>(cells: seq<T>, tail: nat, x: T, t: nat)
    requires tail < |cells| && t == (tail + 1) % |cells| && tail == (t + (|cells| - 1)) % |cells|
    ensures From(cells[tail := x], t, |cells|) == From(cells, tail, |cells|)[1..] + [x]
  {
    var n := |cells|;
    ModUnique(tail, n, 0, tail);
    HeadTaken(cells, tail, n);
    assert From(cells, t, n - 1) == From(cells, tail, n)[1..];
    StoreAppends(cells, t, n - 1, x);
  }

  class CircularBuffer<T(0)> {
    const pool: array<T>
    var head: nat
    var tail: nat
    var fullFlag: bool

    ghost predicate Valid()
      reads this, pool
    {
      && 0 < pool.Length && head < pool.Length && tail < pool.Length
      && (fullFlag ==> head == tail)
    }

    ghost function Contents(): seq<T>
      requires Valid()
      reads this, pool
    {
      From(pool[..], tail, Count(head, tail, fullFlag, pool.Length))
    }

    constructor (size: nat)
      requires 0 < size
      ensures Valid() && Contents() == [] && fresh(pool) && pool.Length == size
    {
      pool := new T[size];
      head, tail, fullFlag := 0, 0, false;
    }

    method Empty() returns (empty: bool)
      requires Valid()
      ensures empty == (Contents() == [])
    {
      empty := head == tail && !fullFlag;
    }

    method Full() returns (full: bool)
      requires Valid()
      ensures full == (|Contents()| == pool.Length)
    {
      full := fullFlag;
    }

    method Push(data: T)
      requires Valid()
      modifies this, pool
      ensures Valid() && Contents() == Pushed(old(Contents()), pool.Length, data)
    {
      PushExact(pool[..], head, tail, fullFlag, data,
                if fullFlag then (tail + 1) % pool.Length else tail, (head + 1) % pool.Length);
      if fullFlag {
        tail := (tail + 1) % pool.Length;
      }
      ghost var cells := pool[..];
      pool[head] := data;
      assert pool[..] == cells[head := data];
      head := (head + 1) % pool.Length;
      if head == tail {
        fullFlag := true;
      }
    }

    method Pop() returns (ok: bool, data: T)
      requires Valid()
      modifies this`tail, this`fullFlag
      ensures Valid() && ok == (old(Contents()) != [])
      ensures if ok then old(Contents()) == [data] + Contents() else Contents() == []
    {
      data := pool[tail];
      ok := !(head == tail && !fullFlag);
      if ok {
        ghost var n := Count(head, tail, fullFlag, pool.Length);
        NextSlot(tail, n, pool.Length);
        HeadTaken(pool[..], tail, n);
        tail := (tail + 1) % pool.Length;
        fullFlag := false;
      }
    }

    method Clear()
      requires Valid()
      modifies this`head, this`tail, this`fullFlag
      ensures Valid() && Contents() == []
    {
      head, tail, fullFlag := 0, 0, false;
    }
  }

  // ---- Asynchronous transfers ----

  /**
   The peripheral, the queue, a transfer that has found the peripheral busy and is about to be queued, the
   transfers started so far, the accepted ones less those a clear has dropped, and the transfers that were still
   running when another was started over them.
  */
  datatype Sys<T> = Sys(active: bool, queue: seq<T>, waiting: Option<T>, started: seq<T>, kept: seq<T>, cut: seq<T>)

  /**
   transfer is two steps, the test (Call) and, if the peripheral is busy, queue_transfer (Queue). Event is an
   interrupt: `over` says that the transfer has ended, with or without success, and then its callback calls
   transfer for each of `again`.
  */
  datatype Op<T> =
    | Call(t: T)
    | Queue
    | Event(over: bool, again: seq<T>)
    | Abort
    | ClearBuffer
    | AbortAll

  function Idle<T>(): Sys<T> { Sys(false, [], None, [], [], []) }

  /** start_transfer, whether or not the peripheral is free. */
  function Start<T>(s: Sys<T>, t: T): Sys<T> {
    s.(active := true, started := s.started + [t],
       cut := if s.active && s.started != [] then s.cut + [s.started[|s.started| - 1]] else s.cut)
  }

  function StartNext<T>(s: Sys<T>): Sys<T> {
    if s.queue == [] then s else Start(s.(queue := s.queue[1..]), s.queue[0])
  }

  /** queue_transfer */
  function Enqueue<T>(s: Sys<T>, t: T, n: nat): Sys<T> {
    if |s.queue| < n then s.(queue := s.queue + [t], kept := s.kept + [t]) else s
  }

  /** transfer, where nothing comes between test and queueing. */
  function Submit<T>(s: Sys<T>, t: T, n: nat): Sys<T> {
    if s.active then Enqueue(s, t, n) else Start(s, t).(kept := s.kept + [t])
  }

  function SubmitAll<T>(s: Sys<T>, ts: seq<T>, n: nat): Sys<T>
    decreases |ts|
  {
    if ts == [] then s else SubmitAll(Submit(s, ts[0], n), ts[1..], n)
  }

  function Cleared<T>(s: Sys<T>): Sys<T> {
    s.(queue := [], kept := if |s.queue| <= |s.kept| then s.kept[..|s.kept| - |s.queue|] else [])
  }

  function Next<T>(s: Sys<T>, op: Op<T>, n: nat): Sys<T> {
    match op
    case Call(t) =>
      if s.waiting.Some? then s
      else if s.active then s.(waiting := Some(t))
      else Submit(s, t, n)
    case Queue => if s.waiting.Some? then Enqueue(s, s.waiting.value, n).(waiting := None) else s
    case Event(over, again) =>
      if s.active && over then StartNext(SubmitAll(s.(active := false), again, n)) else s
    case Abort => StartNext(s.(active := false))
    case ClearBuffer => Cleared(s)
    case AbortAll => StartNext(Cleared(s).(active := false))
  }

  function Run<T>(s: Sys<T>, ops: seq<Op<T>>, n: nat): Sys<T>
    decreases |ops|
  {
    if ops == [] then s else Run(Next(s, ops[0], n), ops[1..], n)
  }

  /**
   Nothing waits for an idle peripheral, no transfer was cut off by the next, and everything kept has been
   started in order or is queued in order.
  */
  ghost predicate Inv<T>(s: Sys<T>, n: nat) {
    |s.queue| <= n && (s.queue != [] ==> s.active) && s.kept == s.started + s.queue && s.cut == []
  }

  /**
   The two steps that can go wrong: queueing when the transfer in front has ended since the test, and a callback
   that calls transfer when a transfer is queued already, or twice.
  */
  predicate Right<T(==)>(s: Sys<T>, op: Op<T>) {
    match op
    case Queue => s.waiting.Some? ==> s.active
    case Event(over, again) => s.active && over ==> again == [] || (s.queue == [] && |again| == 1)
    case _ => true
  }

  lemma StartNextKeeps<T>(s: Sys<T>, n: nat)
    requires |s.queue| <= n && s.kept == s.started + s.queue && s.cut == [] && !s.active
    ensures Inv(StartNext(s), n)
  {
    if s.queue != [] {
      assert s.started + s.queue == (s.started + [s.queue[0]]) + s.queue[1..];
    }
  }

  lemma SubmitKeeps<T>(s: Sys<T>, t: T, n: nat)
    requires Inv(s, n)
    ensures Inv(Submit(s, t, n), n)
  {
    if s.active {
      assert s.started + s.queue + [t] == s.started + (s.queue + [t]);
    } else {
      assert s.started + s.queue == s.started && s.started + [t] + [] == s.started + [t];
    }
  }

  lemma RightKeeps<T>(s: Sys<T>, op: Op<T>, n: nat)
    requires 0 < n && Inv(s, n) && Right(s, op)
    ensures Inv(Next(s, op, n), n)
  {
    match op
    case Call(t) => SubmitKeeps(s, t, n);
    case Queue =>
      if s.waiting.Some? {
        SubmitKeeps(s, s.waiting.value, n);
      }
    case Event(over, again) =>
      if s.active && over {
        EventKeeps(s, again, n);
      }
    case Abort => StartNextKeeps(s.(active := false), n);
    case ClearBuffer =>
    case AbortAll => StartNextKeeps(Cleared(s).(active := false), n);
  }

  lemma EventKeeps<T>(s: Sys<T>, again: seq<T>, n: nat)
    requires Inv(s, n) && s.active && (again == [] || (s.queue == [] && |again| == 1))
    ensures Inv(StartNext(SubmitAll(s.(active := false), again, n)), n)
  {
    var idle := s.(active := false);
    if again == [] {
      StartNextKeeps(idle, n);
    } else {
      SubmitKeeps(idle, again[0], n);
      assert SubmitAll(idle, again, n) == SubmitAll(Submit(idle, again[0], n), [], n);
    }
  }

  /** While a transfer runs, the calls of a callback only queue. */
  lemma {:induction false} SubmitAllQueues<T>(s: Sys<T>, ts: seq<T>, n: nat)
    requires s.active
    ensures var r := SubmitAll(s, ts, n);
            && r.active && r.started == s.started && r.cut == s.cut && |r.queue| >= |s.queue|
            && (ts != [] && 0 < n ==> r.queue != [])
    decreases |ts|
  {
    if ts != [] {
      SubmitAllQueues(Submit(s, ts[0], n), ts[1..], n);
    }
  }

  /** A wrong event starts one transfer over another. */
  lemma WrongEventCuts<T>(s: Sys<T>, again: seq<T>, n: nat)
    requires 0 < n && s.active && !(again == [] || (s.queue == [] && |again| == 1))
    ensures StartNext(SubmitAll(s.(active := false), again, n)).cut != []
  {
    var first := Submit(s.(active := false), again[0], n);
    assert first.active && first.started != [];
    SubmitAllQueues(first, again[1..], n);
  }

  /** The order survives a step exactly if the step is right. */
  lemma NextExact<T>(s: Sys<T>, op: Op<T>, n: nat)
    requires 0 < n && Inv(s, n)
    ensures Inv(Next(s, op, n), n) <==> Right(s, op)
  {
    if Right(s, op) {
      RightKeeps(s, op, n);
    } else if op.Event? {
      WrongEventCuts(s, op.again, n);
    }
  }

  predicate RightRun<T(==)>(s: Sys<T>, ops: seq<Op<T>>, n: nat)
    decreases |ops|
  {
    ops == [] || (Right(s, ops[0]) && RightRun(Next(s, ops[0], n), ops[1..], n))
  }

  ghost predicate Always<T>(s: Sys<T>, ops: seq<Op<T>>, n: nat)
    decreases |ops|
  {
    Inv(s, n) && (ops == [] || Always(Next(s, ops[0], n), ops[1..], n))
  }

  /** Every state of a run is in order exactly if every step of it is right. */
  lemma {:induction false} RunExact<T>(s: Sys<T>, ops: seq<Op<T>>, n: nat)
    requires 0 < n && Inv(s, n)
    ensures Always(s, ops, n) <==> RightRun(s, ops, n)
    ensures RightRun(s, ops, n) ==> Inv(Run(s, ops, n), n)
    decreases |ops|
  {
    if ops != [] {
      NextExact(s, ops[0], n);
      if Right(s, ops[0]) {
        RunExact(Next(s, ops[0], n), ops[1..], n);
      } else if ops[1..] == [] {
        assert !Inv(Next(s, ops[0], n), n);
      }
    }
  }

  /** No interrupt between the two steps of a transfer, and no callback that calls transfer. */
  predicate Calm<T(==)>(ops: seq<Op<T>>)
    decreases |ops|
  {
    ops == []
    || (match ops[0]
        case Event(_, again) => again == [] && Calm(ops[1..])
        case Call(_) => |ops| > 1 && ops[1].Queue? && Calm(ops[2..])
        case Queue => false
        case _ => Calm(ops[1..]))
  }

  lemma {:induction false} CalmRunsAreRight<T>(s: Sys<T>, ops: seq<Op<T>>, n: nat)
    requires Calm(ops) && s.waiting.None?
    ensures RightRun(s, ops, n)
    decreases |ops|
  {
    if ops != [] {
      var r := Next(s, ops[0], n);
      if ops[0].Call? {
        assert RightRun(r, ops[1..], n) by {
          assert Right(r, Queue) && ops[1..][1..] == ops[2..];
          CalmRunsAreRight(Next(r, Queue, n), ops[2..], n);
        }
      } else {
        SubmitAllWaits(s.(active := false), if ops[0].Event? then ops[0].again else [], n);
        CalmRunsAreRight(r, ops[1..], n);
      }
    }
  }

  lemma {:induction false} SubmitAllWaits<T>(s: Sys<T>, ts: seq<T>, n: nat)
    ensures SubmitAll(s, ts, n).waiting == s.waiting
    decreases |ts|
  {
    if ts != [] {
      SubmitAllWaits(Submit(s, ts[0], n), ts[1..], n);
    }
  }

  // ---- What has been accepted ----

  predicate Accepts<T>(s: Sys<T>, n: nat) { !s.active || |s.queue| < n }

  function AcceptedOf<T>(s: Sys<T>, ts: seq<T>, n: nat): seq<T>
    decreases |ts|
  {
    if ts == [] then []
    else (if Accepts(s, n) then [ts[0]] else []) + AcceptedOf(Submit(s, ts[0], n), ts[1..], n)
  }

  /** The transfers a step accepts, i.e. those whose call returns 0. */
  function AcceptedBy<T>(s: Sys<T>, op: Op<T>, n: nat): seq<T> {
    match op
    case Call(t) => if s.waiting.None? && !s.active then [t] else []
    case Queue => if s.waiting.Some? && |s.queue| < n then [s.waiting.value] else []
    case Event(over, again) => if s.active && over then AcceptedOf(s.(active := false), again, n) else []
    case _ => []
  }

  function Accepted<T>(s: Sys<T>, ops: seq<Op<T>>, n: nat): seq<T>
    decreases |ops|
  {
    if ops == [] then [] else AcceptedBy(s, ops[0], n) + Accepted(Next(s, ops[0], n), ops[1..], n)
  }

  lemma {:induction false} SubmitAllKept<T>(s: Sys<T>, ts: seq<T>, n: nat)
    ensures SubmitAll(s, ts, n).kept == s.kept + AcceptedOf(s, ts, n)
    decreases |ts|
  {
    if ts != [] {
      var r, one := Submit(s, ts[0], n), if Accepts(s, n) then [ts[0]] else [];
      SubmitAllKept(r, ts[1..], n);
      assert r.kept == s.kept + one;
      Associates(s.kept, one, AcceptedOf(r, ts[1..], n));
    }
  }

  lemma KeptGrows<T>(s: Sys<T>, op: Op<T>, n: nat)
    requires !op.ClearBuffer? && !op.AbortAll?
    ensures Next(s, op, n).kept == s.kept + AcceptedBy(s, op, n)
  {
    if op.Event? {
      SubmitAllKept(s.(active := false), op.again, n);
    }
  }

  lemma {:induction false} WithoutClearsNothingIsLost<T>(s: Sys<T>, ops: seq<Op<T>>, n: nat)
    requires forall i | 0 <= i < |ops| :: !ops[i].ClearBuffer? && !ops[i].AbortAll?
    ensures Run(s, ops, n).kept == s.kept + Accepted(s, ops, n)
    decreases |ops|
  {
    if ops != [] {
      var r := Next(s, ops[0], n);
      WithoutClearsNothingIsLost(r, ops[1..], n);
      KeptGrows(s, ops[0], n);
      Associates(s.kept, AcceptedBy(s, ops[0], n), Accepted(r, ops[1..], n));
    }
  }

  /**
   From idle, over every right run without clears: what has been started, followed by what is queued, is what has
   been accepted, no transfer was cut off, and nothing is queued for an idle peripheral.
  */
  lemma AcceptedStartInOrder<T>(ops: seq<Op<T>>, n: nat)
    requires 0 < n && RightRun(Idle(), ops, n)
    requires forall i | 0 <= i < |ops| :: !ops[i].ClearBuffer? && !ops[i].AbortAll?
    ensures var r := Run(Idle<T>(), ops, n);
            && r.started + r.queue == Accepted(Idle(), ops, n) && r.cut == []
            && (r.queue != [] ==> r.active) && |r.queue| <= n
  {
    var s := Idle<T>();
    assert s.started + s.queue == s.kept;
    RunExact(s, ops, n);
    WithoutClearsNothingIsLost(s, ops, n);
    assert [] + Accepted(s, ops, n) == Accepted(s, ops, n);
  }

  // ---- How a transfer ends ----

  /** The peripheral is free: the oldest queued transfer, if any, is running now, and the others have moved up. */
  predicate MovedUp<T(==)>(s: Sys<T>, r: Sys<T>) {
    && r.waiting == s.waiting && r.kept == s.kept
    && if s.queue == [] then !r.active && r.queue == [] && r.started == s.started
       else r.active && r.queue == s.queue[1..] && r.started == s.started + [s.queue[0]]
  }

  /** An interrupt whose callback calls nothing, and an abort, free the peripheral; a clear leaves it alone. */
  lemma EndsExactly<T>(s: Sys<T>, n: nat)
    ensures s.active ==> MovedUp(s, Next(s, Event(true, []), n))
    ensures Next(s, Event(false, []), n) == s
    ensures MovedUp(s, Next(s, Abort, n))
    ensures var r := Next(s, ClearBuffer, n);
            r.queue == [] && r.active == s.active && r.started == s.started && r.waiting == s.waiting
    ensures var r := Next(s, AbortAll, n);
            r.queue == [] && !r.active && r.started == s.started && r.waiting == s.waiting
    ensures Inv(s, n) ==> Next(s, ClearBuffer, n).kept == Next(s, AbortAll, n).kept == s.started
  {
    assert SubmitAll(s.(active := false), [], n) == s.(active := false);
  }

  function Ends<T>(k: nat): seq<Op<T>> {
    if k == 0 then [] else [Event(true, [])] + Ends(k - 1)
  }

  /** Nobody waits for ever: as many ends of transfers as are queued start them all, in order; one more and it idles. */
  lemma {:induction false} EverythingStarts<T>(s: Sys<T>, n: nat)
    requires Inv(s, n) && s.active
    ensures var r := Run(s, Ends(|s.queue|), n);
            r.active && r.queue == [] && r.started == s.kept == r.kept && !Next(r, Event(true, []), n).active
    decreases |s.queue|
  {
    EndsExactly(s, n);
    if s.queue != [] {
      var e := Ends<T>(|s.queue|);
      assert e[0] == Event(true, []) && e[1..] == Ends(|s.queue| - 1);
      NextExact(s, Event(true, []), n);
      EverythingStarts(Next(s, Event(true, []), n), n);
    }
  }

  // ---- The two wrong steps ----

  lemma {:induction false} RunSplit<T>(s: Sys<T>, a: seq<Op<T>>, b: seq<Op<T>>, n: nat)
    ensures Run(s, a + b, n) == Run(Run(s, a, n), b, n)
    decreases |a|
  {
    if a == [] {
      assert a + b == b;
    } else {
      assert (a + b)[0] == a[0] && (a + b)[1..] == a[1..] + b;
      RunSplit(Next(s, a[0], n), a[1..], b, n);
    }
  }

  lemma Runs3<T>(s: Sys<T>, a: Op<T>, b: Op<T>, c: Op<T>, n: nat)
    ensures Run(s, [a, b, c], n) == Next(Next(Next(s, a, n), b, n), c, n)
  {
    var s1, s2 := Next(s, a, n), Next(Next(s, a, n), b, n);
    assert [a, b, c][1..] == [b, c] && [b, c][1..] == [c] && [c][1..] == [];
    assert Run(s2, [c], n) == Run(Next(s2, c, n), [], n);
    assert Run(s1, [b, c], n) == Run(s2, [c], n);
  }

  lemma Runs4<T>(s: Sys<T>, a: Op<T>, b: Op<T>, c: Op<T>, d: Op<T>, n: nat)
    ensures Run(s, [a, b, c, d], n) == Next(Next(Next(Next(s, a, n), b, n), c, n), d, n)
  {
    assert [a, b, c, d][1..] == [b, c, d];
    Runs3(Next(s, a, n), b, c, d, n);
  }

  lemma {:induction false} IdleStays<T>(s: Sys<T>, events: seq<Op<T>>, n: nat)
    requires !s.active && forall i | 0 <= i < |events| :: events[i].Event?
    ensures Run(s, events, n) == s
    decreases |events|
  {
    if events != [] {
      IdleStays(s, events[1..], n);
    }
  }

  /**
   The transfer in front ends between test and push: the second one is accepted, but no interrupt starts it, and
   a third one overtakes it.
  */
  lemma QueuedTooLate<T>(a: T, b: T, c: T, events: seq<Op<T>>, n: nat)
    requires 0 < n && forall i | 0 <= i < |events| :: events[i].Event?
    ensures var ops := [Call(a), Call(b), Event(true, []), Queue];
            var s := Run(Idle(), ops + events, n);
            && Accepted(Idle(), ops, n) == [a, b]
            && s.started == [a] && s.queue == [b] && !s.active
            && Next(s, Call(c), n).started == [a, c] && Next(s, Call(c), n).queue == [b]
  {
    var ops := [Call(a), Call(b), Event(true, []), Queue];
    var i := Idle<T>();
    Runs4(i, Call(a), Call(b), Event(true, []), Queue, n);
    RunSplit(i, ops, events, n);
    IdleStays(Run(i, ops, n), events, n);
    WithoutClearsNothingIsLost(i, ops, n);
    assert [] + Accepted(i, ops, n) == Accepted(i, ops, n);
    assert [a] + [b] == [a, b] && [a] + [c] == [a, c];
  }

  /** A callback that calls transfer while another is queued: its transfer is started, and cut off at once. */
  lemma CallbackIsCutOff<T>(a: T, b: T, c: T, n: nat)
    requires 0 < n
    ensures var s := Run(Idle(), [Call(a), Call(b), Queue, Event(true, [c])], n);
            s.started == [a, c, b] && s.cut == [c] && s.active && s.queue == []
  {
    Runs4(Idle(), Call(a), Call(b), Queue, Event(true, [c]), n);
    var s := Next(Next(Next(Idle(), Call(a), n), Call(b), n), Queue, n);
    assert s.started == [a] && s.queue == [b];
    var r := s.(active := false);
    assert SubmitAll(r, [c], n) == SubmitAll(Submit(r, c, n), [], n);
    assert [a] + [c] == [a, c] && [a, c] + [b] == [a, c, b];
  }

  class Master<T(0)> {
    const buffer: CircularBuffer<T>
    var active: bool
    ghost var waiting: Option<T>
    ghost var started: seq<T>
    ghost var kept: seq<T>
    ghost var cut: seq<T>

    ghost predicate Valid()
      reads this, buffer, buffer.pool
    {
      buffer.Valid()
    }

    ghost function St(): Sys<T>
      requires Valid()
      reads this, buffer, buffer.pool
    {
      Sys(active, buffer.Contents(), waiting, started, kept, cut)
    }

    constructor (size: nat)
      requires 0 < size
      ensures Valid() && St() == Idle() && buffer.pool.Length == size
    {
      buffer := new CircularBuffer<T>(size);
      active, waiting, started, kept, cut := false, None, [], [], [];
    }

    method StartTransfer(t: T)
      modifies this`active, this`started, this`cut
      ensures active && started == old(started) + [t]
      ensures cut == if old(active) && old(started) != [] then old(cut) + [old(started)[|old(started)| - 1]]
                     else old(cut)
    {
      cut := if active && started != [] then cut + [started[|started| - 1]] else cut;
      active := true;
      started := started + [t];
    }

    /** 0, or -1 when the buffer is full */
    method QueueTransfer(t: T) returns (ret: int)
      requires Valid()
      modifies this`kept, buffer, buffer.pool
      ensures Valid() && St() == Enqueue(old(St()), t, buffer.pool.Length)
      ensures ret == if |old(St()).queue| < buffer.pool.Length then 0 else -1
    {
      var full := buffer.Full();
      if full {
        return -1;
      }
      buffer.Push(t);
      kept := kept + [t];
      ret := 0;
    }

    /** transfer as a callback runs it, which no interrupt interrupts */
    method Transfer(t: T) returns (ret: int)
      requires Valid()
      modifies this`active, this`started, this`kept, this`cut, buffer, buffer.pool
      ensures Valid() && St() == Submit(old(St()), t, buffer.pool.Length)
      ensures ret == if Accepts(old(St()), buffer.pool.Length) then 0 else -1
    {
      if active {
        ret := QueueTransfer(t);
        return;
      }
      StartTransfer(t);
      kept := kept + [t];
      ret := 0;
    }

    /** transfer as the application runs it: an interrupt (or none, if not `over`) comes behind the test. */
    method TransferInterrupted(t: T, over: bool, again: seq<T>) returns (ret: int)
      requires Valid() && waiting == None
      modifies this, buffer, buffer.pool
      ensures Valid() && waiting == None
      ensures St() == if old(active) then Run(old(St()), [Call(t), Event(over, again), Queue], buffer.pool.Length)
                      else Next(old(St()), Call(t), buffer.pool.Length)
      ensures ret == if !old(active) || |Next(Next(old(St()), Call(t), buffer.pool.Length), Event(over, again),
                                              buffer.pool.Length).queue| < buffer.pool.Length then 0 else -1
    {
      if active {
        ghost var s := St();
        Runs3(s, Call(t), Event(over, again), Queue, buffer.pool.Length);
        waiting := Some(t);
        IrqHandler(over, again);
        ret := QueueTransfer(t);
        waiting := None;
        return;
      }
      StartTransfer(t);
      kept := kept + [t];
      ret := 0;
    }

    method DequeueTransaction()
      requires Valid()
      modifies this`active, this`started, this`cut, buffer
      ensures Valid() && St() == StartNext(old(St()))
    {
      var ok, t := buffer.Pop();
      if ok {
        StartTransfer(t);
      }
    }

    /** irq_handler_asynch; at the end of a transfer its callback calls transfer for each of `again`. */
    method IrqHandler(over: bool, again: seq<T>)
      requires Valid()
      modifies this`active, this`started, this`kept, this`cut, buffer, buffer.pool
      ensures Valid() && St() == Next(old(St()), Event(over, again), buffer.pool.Length)
    {
      if active && over {
        active := false;
        Callback(again);
        DequeueTransaction();
      }
    }

    method Callback(again: seq<T>)
      requires Valid()
      modifies this`active, this`started, this`kept, this`cut, buffer, buffer.pool
      ensures Valid() && St() == SubmitAll(old(St()), again, buffer.pool.Length)
      decreases |again|
    {
      if again != [] {
        var _ := Transfer(again[0]);
        Callback(again[1..]);
      }
    }

    method AbortTransfer()
      requires Valid()
      modifies this`active, this`started, this`cut, buffer
      ensures Valid() && St() == Next(old(St()), Abort, buffer.pool.Length)
    {
      active := false;
      DequeueTransaction();
    }

    method ClearTransferBuffer()
      requires Valid()
      modifies this`kept, buffer
      ensures Valid() && St() == Next(old(St()), ClearBuffer, buffer.pool.Length)
    {
      ghost var s := St();
      buffer.Clear();
      kept := Cleared(s).kept;
    }

    method AbortAllTransfers()
      requires Valid()
      modifies this, buffer
      ensures Valid() && St() == Next(old(St()), AbortAll, buffer.pool.Length)
    {
      ClearTransferBuffer();
      AbortTransfer();
    }
  }
}
