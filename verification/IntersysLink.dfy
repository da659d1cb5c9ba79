/**
 The inter-processor mailbox of platform/hal/hal_intersys.c, seen as a protocol: one direction of one
 channel, i.e. the transmit half of one core and the receive half of the other (taken to run the receive
 routine of the same file). Every interrupt routine and every API call is one step; IntersysChannel.dfy
 proves that the pointer code takes exactly these steps.
*/
module IntersysLink {
  const MAX_SEND_RECORD_COUNT: nat := 3
  const MSG_TYPE_QTY: nat := 2

  type Byte = b: int | 0 <= b < 256

  /** A message as the peer sees it: `addr` is its data pointer (0 is NULL), `data` the bytes behind it. */
  datatype Msg = Msg(kind: nat, addr: nat, data: seq<Byte>)

  /** A delivered byte together with the type of the message it came in. */
  type Tagged = (nat, Byte)

  function Tag(m: Msg): seq<Tagged> { TagAll(m.kind, m.data) }

  function TagAll(kind: nat, data: seq<Byte>): (out: seq<Tagged>)
    ensures |out| == |data|
    decreases |data|
  {
    if data == [] then [] else [(kind, data[0])] + TagAll(kind, data[1..])
  }

  lemma {:induction false} TagSplit(kind: nat, data: seq<Byte>, n: nat)
    requires n <= |data|
    ensures TagAll(kind, data)[..n] + TagAll(kind, data[n..]) == TagAll(kind, data)
    decreases n
  {
    if n > 0 {
      TagSplit(kind, data[1..], n - 1);
      assert data[1..][n - 1..] == data[n..];
      var all := TagAll(kind, data);
      assert all[..n] == [all[0]] + all[1..][..n - 1];
    }
  }

  function Stream(ms: seq<Msg>): seq<Tagged> {
    if ms == [] then [] else Tag(ms[0]) + Stream(ms[1..])
  }

  /** The message left over when a receive handler has taken the first n bytes of m. */
  function Advance(m: Msg, n: nat): Msg
    requires n <= |m.data|
  {
    Msg(m.kind, m.addr + n, m.data[n..])
  }

  predicate ValidKinds(ms: seq<Msg>) {
    forall k | 0 <= k < |ms| :: ms[k].kind < MSG_TYPE_QTY
  }

  lemma {:induction false} StreamAppend(a: seq<Msg>, b: seq<Msg>)
    ensures Stream(a + b) == Stream(a) + Stream(b)
  {
    if a == [] {
      assert a + b == b;
    } else {
      assert (a + b)[0] == a[0] && (a + b)[1..] == a[1..] + b;
      StreamAppend(a[1..], b);
    }
  }

  lemma StreamOne(m: Msg)
    ensures Stream([m]) == Tag(m)
  {
    assert [m][1..] == [];
  }

  lemma Regroup<T>(d: seq<T>, r: seq<T>, p: seq<T>, t: seq<T>)
    ensures (d + r + p) + t == d + r + (p + t) == d + (r + (p + t)) == d + (r + p) + t == (d + r) + p + t
  {
  }

  // ---- The receive walk ----

  /** How one receive interrupt ends: the whole batch consumed, or a handler that stopped short. */
  datatype Rx = RxDone(out: seq<Tagged>) | RxStop(out: seq<Tagged>, head: Msg, tail: seq<Msg>)

  /** The i-th handler call of the interrupt reports takes(i) processed bytes, whatever it likes. */
  function RxWalk(ms: seq<Msg>, takes: nat -> nat, i: nat): Rx
    decreases |ms|
  {
    if ms == [] then RxDone([])
    else
      var n := takes(i);
      if n < |ms[0].data| then RxStop(Tag(ms[0])[..n], Advance(ms[0], n), ms[1..])
      else
        var r := RxWalk(ms[1..], takes, i + 1);
        r.(out := Tag(ms[0]) + r.out)
  }

  lemma StopConserves(m: Msg, tail: seq<Msg>, n: nat)
    requires n <= |m.data|
    ensures Tag(m)[..n] + Stream([Advance(m, n)] + tail) == Stream([m] + tail)
  {
    var h := Advance(m, n);
    assert ([h] + tail)[1..] == tail && ([m] + tail)[1..] == tail;
    TagSplit(m.kind, m.data, n);
    Regroup(Tag(m)[..n], Tag(h), Stream(tail), []);
  }

  /** No byte of the walked messages is lost, duplicated or reordered by stopping short. */
  lemma {:induction false} RxWalkConserves(ms: seq<Msg>, takes: nat -> nat, i: nat)
    ensures var r := RxWalk(ms, takes, i);
            && (r.RxDone? ==> r.out == Stream(ms))
            && (r.RxStop? ==> r.out + Stream([r.head] + r.tail) == Stream(ms) && r.head.data != [])
    decreases |ms|
  {
    if ms != [] {
      var n := takes(i);
      if n < |ms[0].data| {
        assert [ms[0]] + ms[1..] == ms;
        StopConserves(ms[0], ms[1..], n);
      } else {
        RxWalkConserves(ms[1..], takes, i + 1);
        PassConserves(ms[0], ms[1..], RxWalk(ms[1..], takes, i + 1));
      }
    }
  }

  lemma PassConserves(m: Msg, tail: seq<Msg>, r: Rx)
    requires r.RxDone? ==> r.out == Stream(tail)
    requires r.RxStop? ==> r.out + Stream([r.head] + r.tail) == Stream(tail)
    ensures r.RxDone? ==> Tag(m) + r.out == Tag(m) + Stream(tail)
    ensures r.RxStop? ==> (Tag(m) + r.out) + Stream([r.head] + r.tail) == Tag(m) + Stream(tail)
  {
    if r.RxStop? {
      Regroup(Tag(m), r.out, Stream([r.head] + r.tail), []);
    }
  }

  lemma {:induction false} RxWalkKinds(ms: seq<Msg>, takes: nat -> nat, i: nat)
    requires ValidKinds(ms)
    ensures var r := RxWalk(ms, takes, i); r.RxStop? ==> ValidKinds([r.head] + r.tail)
    decreases |ms|
  {
    if ms != [] && takes(i) >= |ms[0].data| {
      RxWalkKinds(ms[1..], takes, i + 1);
    }
  }

  // ---- The transmit-done walk ----

  /** What callbacks of the done interrupt can change: the pending list (and the accepted history). */
  datatype Tx = Tx(pending: seq<Msg>, accepted: seq<Tagged>)

  /** A send while `used` records of the walked batch are still in use. */
  function SendInWalk(used: nat, t: Tx, m: Msg): Tx {
    if m.kind < MSG_TYPE_QTY && used + |t.pending| < MAX_SEND_RECORD_COUNT
    then Tx(t.pending + [m], t.accepted + Tag(m))
    else t
  }

  function SendMany(used: nat, t: Tx, ms: seq<Msg>): Tx
    decreases |ms|
  {
    if ms == [] then t else SendMany(used, SendInWalk(used, t, ms[0]), ms[1..])
  }

  /** The callback for the i-th record of the batch sends the messages react(i); then that record is freed. */
  function TxWalk(left: nat, i: nat, t: Tx, react: nat -> seq<Msg>): Tx
    decreases left
  {
    if left == 0 then t else TxWalk(left - 1, i + 1, SendMany(left, t, react(i)), react)
  }

  // ---- The link and its steps ----

  datatype Link = Link(
    active: seq<Msg>, pending: seq<Msg>,       // send_msg_list_p, send_pending_list_p
    head: Msg, tail: seq<Msg>,                 // recv_pending_head; in force iff head.addr != 0
    ind: bool, done: bool, rxEnabled: bool,    // SEND_IND and RECV_DONE latches, receive interrupt mask
    accepted: seq<Tagged>, delivered: seq<Tagged>)   // history

  datatype Step =
    | Send(msg: Msg)
    | TxIrq(react: nat -> seq<Msg>)
    | RxIrq(takes: nat -> nat, restart: bool)  // restart: some handler call of this interrupt calls start_recv
    | StartRecv
    | StopRecv

  predicate Saved(l: Link) { l.head.addr != 0 }

  function DoSend(l: Link, m: Msg): Link {
    if m.kind >= MSG_TYPE_QTY || |l.active| + |l.pending| >= MAX_SEND_RECORD_COUNT then l
    else if l.active == [] then l.(active := [m], ind := true, accepted := l.accepted + Tag(m))
    else l.(pending := l.pending + [m], accepted := l.accepted + Tag(m))
  }

  function DoTxIrq(l: Link, react: nat -> seq<Msg>): Link {
    Swap(l, TxWalk(|l.active|, 0, Tx(l.pending, l.accepted), react))
  }

  /** The end of the done interrupt: what is pending becomes the next batch. */
  function Swap(l: Link, t: Tx): Link {
    l.(done := false, active := t.pending, pending := [], ind := l.ind || t.pending != [], accepted := t.accepted)
  }

  function Batch(l: Link): seq<Msg> {
    if Saved(l) then [l.head] + l.tail else l.active
  }

  function DoRxIrq(l: Link, takes: nat -> nat, restart: bool): Link {
    Received(l, RxWalk(Batch(l), takes, 0), restart && Saved(l))
  }

  function Received(l: Link, r: Rx, raised: bool): Link {
    match r
    case RxDone(out) =>
      l.(ind := raised, done := true, head := l.head.(addr := 0), tail := [], delivered := l.delivered + out)
    case RxStop(out, h, t) =>
      l.(ind := raised, head := h, tail := if h.addr == 0 then [] else t, delivered := l.delivered + out)
  }

  function Next(l: Link, s: Step): Link {
    match s
    case Send(m) => DoSend(l, m)
    case TxIrq(react) => if l.done then DoTxIrq(l, react) else l
    case RxIrq(takes, restart) => if l.ind && l.rxEnabled then DoRxIrq(l, takes, restart) else l
    case StartRecv => l.(rxEnabled := true, ind := l.ind || Saved(l))
    case StopRecv => l.(rxEnabled := false)
  }

  function Run(l: Link, steps: seq<Step>): Link
    decreases |steps|
  {
    if steps == [] then l else Run(Next(l, steps[0]), steps[1..])
  }

  /** The channel as hal_intersys_open leaves it. */
  const OPENED: Link := Link([], [], Msg(0, 0, []), [], false, false, false, [], [])

  // ---- The delivery invariant ----

  /** What the receiver has still to report of the batch it was handed. */
  function Rest(l: Link): seq<Msg> {
    if Saved(l) then [l.head] + l.tail else if l.done then [] else l.active
  }

  ghost predicate Conserved(l: Link) {
    l.accepted == l.delivered + Stream(Rest(l)) + Stream(l.pending)
  }

  /** Undelivered bytes always have something left that will move them: a latched interrupt or a saved
      remainder that start_recv turns into one. */
  ghost predicate Live(l: Link) {
    l.active != [] ==> l.done || l.ind || Saved(l)
  }

  predicate SuffixOf(a: seq<Tagged>, b: seq<Tagged>) {
    |a| <= |b| && b[|b| - |a|..] == a
  }

  ghost predicate Inv(l: Link) {
    Shape(l) && Live(l) && Conserved(l)
  }

  ghost predicate Shape(l: Link) {
    && |l.active| + |l.pending| <= MAX_SEND_RECORD_COUNT
    && (l.pending != [] ==> l.active != [])
    && ValidKinds(l.active) && ValidKinds(l.pending) && (Saved(l) ==> ValidKinds([l.head] + l.tail))
    && (l.done ==> l.active != [] && !Saved(l) && !l.ind)
    && (l.ind ==> l.active != [])
    && (Saved(l) ==> l.active != [] && l.head.data != [] && SuffixOf(Stream([l.head] + l.tail), Stream(l.active)))
  }

  /**
   The two ways to break the protocol, as guards of the receive interrupt that can be read off before it:
   a handler stopping short without a byte taken from a message whose data pointer is NULL (the saved
   pointer doubles as the "something saved" flag), and a handler calling start_recv while the rest of a
   message is being delivered and the batch then being finished in the same interrupt.
  */
  predicate Safe(l: Link, s: Step) {
    s.RxIrq? && l.ind && l.rxEnabled ==>
      match RxWalk(Batch(l), s.takes, 0)
      case RxDone(_) => !(s.restart && Saved(l))
      case RxStop(_, h, _) => h.addr != 0
  }

  lemma SendInWalkKeeps(used: nat, t: Tx, m: Msg, base: seq<Tagged>)
    requires t.accepted == base + Stream(t.pending)
    requires used + |t.pending| <= MAX_SEND_RECORD_COUNT && ValidKinds(t.pending)
    ensures var r := SendInWalk(used, t, m);
            && r.accepted == base + Stream(r.pending)
            && used + |r.pending| <= MAX_SEND_RECORD_COUNT && ValidKinds(r.pending)
  {
    StreamAppend(t.pending, [m]);
    StreamOne(m);
    Regroup(base, Stream(t.pending), Tag(m), []);
  }

  lemma {:induction false} SendManyKeeps(used: nat, t: Tx, ms: seq<Msg>, base: seq<Tagged>)
    requires t.accepted == base + Stream(t.pending)
    requires used + |t.pending| <= MAX_SEND_RECORD_COUNT
    requires ValidKinds(t.pending)
    ensures var r := SendMany(used, t, ms);
            && r.accepted == base + Stream(r.pending)
            && used + |r.pending| <= MAX_SEND_RECORD_COUNT
            && ValidKinds(r.pending)
    decreases |ms|
  {
    if ms != [] {
      SendInWalkKeeps(used, t, ms[0], base);
      SendManyKeeps(used, SendInWalk(used, t, ms[0]), ms[1..], base);
    }
  }

  lemma {:induction false} TxWalkKeeps(left: nat, i: nat, t: Tx, react: nat -> seq<Msg>, base: seq<Tagged>)
    requires t.accepted == base + Stream(t.pending)
    requires left + |t.pending| <= MAX_SEND_RECORD_COUNT
    requires ValidKinds(t.pending)
    ensures var r := TxWalk(left, i, t, react);
            && r.accepted == base + Stream(r.pending)
            && |r.pending| <= MAX_SEND_RECORD_COUNT
            && ValidKinds(r.pending)
    decreases left
  {
    if left != 0 {
      SendManyKeeps(left, t, react(i), base);
      TxWalkKeeps(left - 1, i + 1, SendMany(left, t, react(i)), react, base);
    }
  }

  function More(t: Tx, ms: seq<Msg>): Tx { Tx(t.pending + ms, t.accepted + Stream(ms)) }

  lemma MoreMore(t: Tx, a: seq<Msg>, b: seq<Msg>)
    ensures More(More(t, a), b) == More(t, a + b) && More(t, []) == t
  {
    StreamAppend(a, b);
    Regroup(t.accepted, Stream(a), Stream(b), []);
    assert (t.pending + a) + b == t.pending + (a + b);
    assert t.pending + [] == t.pending && t.accepted + Stream([]) == t.accepted;
  }

  /** Of the messages a callback sends the first are taken, in order, as many as there are free records. */
  lemma {:induction false} SendManyTakes(used: nat, t: Tx, ms: seq<Msg>, n: nat)
    requires ValidKinds(ms) && used + |t.pending| + n <= MAX_SEND_RECORD_COUNT && n <= |ms|
    requires n < |ms| ==> used + |t.pending| + n == MAX_SEND_RECORD_COUNT
    ensures SendMany(used, t, ms) == More(t, ms[..n])
    decreases |ms|
  {
    if ms == [] {
      MoreMore(t, [], []);
      assert ms[..n] == [];
    } else if n == 0 {
      SendManyTakes(used, t, ms[1..], 0);
      assert ms[1..][..0] == ms[..0];
    } else {
      var m := ms[0];
      StreamOne(m);
      assert SendInWalk(used, t, m) == More(t, [m]);
      SendManyTakes(used, More(t, [m]), ms[1..], n - 1);
      MoreMore(t, [m], ms[1..][..n - 1]);
      assert [m] + ms[1..][..n - 1] == ms[..n];
    }
  }

  lemma OfUnknownKindNothing(used: nat, t: Tx, m: Msg)
    requires m.kind >= MSG_TYPE_QTY
    ensures SendMany(used, t, [m]) == t
  {
    assert [m][1..] == [];
  }

  /** Everything the callbacks send, in order. */
  function Reactions(left: nat, i: nat, react: nat -> seq<Msg>): seq<Msg>
    decreases left
  {
    if left == 0 then [] else react(i) + Reactions(left - 1, i + 1, react)
  }

  /** Each callback finds records for all it sends, while its own record and those behind it are still in use. */
  predicate RoomForAll(left: nat, i: nat, n: nat, react: nat -> seq<Msg>)
    decreases left
  {
    left == 0 ||
    (&& ValidKinds(react(i)) && left + n + |react(i)| <= MAX_SEND_RECORD_COUNT
     && RoomForAll(left - 1, i + 1, n + |react(i)|, react))
  }

  /** What callbacks send while there is room is the next batch, in order. */
  lemma {:induction false} WalkTakesAll(left: nat, i: nat, t: Tx, react: nat -> seq<Msg>)
    requires RoomForAll(left, i, |t.pending|, react)
    ensures TxWalk(left, i, t, react) == More(t, Reactions(left, i, react))
    decreases left
  {
    MoreMore(t, react(i), if left == 0 then [] else Reactions(left - 1, i + 1, react));
    if left > 0 {
      SendManyTakes(left, t, react(i), |react(i)|);
      assert react(i)[..|react(i)|] == react(i);
      WalkTakesAll(left - 1, i + 1, More(t, react(i)), react);
    }
  }

  lemma SendConserves(l: Link, m: Msg)
    requires Conserved(l) && (l.active == [] ==> l.pending == [] && !Saved(l) && !l.done)
    ensures Conserved(DoSend(l, m))
  {
    StreamOne(m);
    if m.kind < MSG_TYPE_QTY && |l.active| + |l.pending| < MAX_SEND_RECORD_COUNT && l.active != [] {
      StreamAppend(l.pending, [m]);
      assert Rest(DoSend(l, m)) == Rest(l);
      Regroup(l.delivered, Stream(Rest(l)), Stream(l.pending), Tag(m));
    }
  }

  lemma SendKeepsShape(l: Link, m: Msg)
    requires Shape(l)
    ensures Shape(DoSend(l, m))
  {
  }

  lemma SendKeepsInv(l: Link, m: Msg)
    requires Inv(l)
    ensures Inv(DoSend(l, m))
  {
    SendConserves(l, m);
    SendKeepsShape(l, m);
  }

  lemma TxIrqKeepsInv(l: Link, react: nat -> seq<Msg>)
    requires Inv(l) && l.done
    ensures Inv(DoTxIrq(l, react))
  {
    TxWalkKeeps(|l.active|, 0, Tx(l.pending, l.accepted), react, l.delivered);
  }

  lemma RxIrqConserves(l: Link, takes: nat -> nat, restart: bool)
    requires Conserved(l) && Rest(l) == Batch(l)
    requires var r := RxWalk(Batch(l), takes, 0); r.RxStop? ==> r.head.addr != 0
    ensures Conserved(DoRxIrq(l, takes, restart))
  {
    var r, p := RxWalk(Batch(l), takes, 0), Stream(l.pending);
    RxWalkConserves(Batch(l), takes, 0);
    if r.RxDone? {
      Regroup(l.delivered, r.out, [], p);
    } else {
      Regroup(l.delivered, r.out, Stream([r.head] + r.tail), p);
    }
  }

  lemma SafeRxIrqKeepsInv(l: Link, takes: nat -> nat, restart: bool)
    requires Inv(l) && l.ind && l.rxEnabled && Safe(l, RxIrq(takes, restart))
    ensures Inv(DoRxIrq(l, takes, restart))
  {
    RxWalkConserves(Batch(l), takes, 0);
    RxWalkKinds(Batch(l), takes, 0);
    RxIrqConserves(l, takes, restart);
    var r := RxWalk(Batch(l), takes, 0);
    if r.RxStop? {
      assert SuffixOf(Stream([r.head] + r.tail), Stream(Batch(l)));
    }
  }

  /** Stopping short at a NULL pointer either strands the remainder or hands out the whole batch again. */
  lemma NullStopBreaksInv(l: Link, takes: nat -> nat, restart: bool)
    requires Inv(l) && l.ind && l.rxEnabled
    requires var r := RxWalk(Batch(l), takes, 0); r.RxStop? && r.head.addr == 0
    ensures !Inv(DoRxIrq(l, takes, restart))
  {
    var l', r := DoRxIrq(l, takes, restart), RxWalk(Batch(l), takes, 0);
    if Saved(l) && restart {
      assert Batch(l)[0] == l.head && |r.out| >= |l.head.data| > 0;
      var again, rest, p := Stream(l.active), Stream([l.head] + l.tail), Stream(l.pending);
      assert |l.accepted| == |l.delivered| + |rest| + |p|;
      assert |l'.delivered + Stream(Rest(l')) + Stream(l'.pending)| == |l.delivered| + |r.out| + |again| + |p|;
    } else {
      assert !Live(l');
    }
  }

  /** One receive interrupt keeps the invariant exactly when it is safe. */
  lemma RxIrqExact(l: Link, takes: nat -> nat, restart: bool)
    requires Inv(l) && l.ind && l.rxEnabled
    ensures Inv(DoRxIrq(l, takes, restart)) <==> Safe(l, RxIrq(takes, restart))
  {
    if Safe(l, RxIrq(takes, restart)) {
      SafeRxIrqKeepsInv(l, takes, restart);
    } else if RxWalk(Batch(l), takes, 0).RxStop? {
      NullStopBreaksInv(l, takes, restart);
    }
  }

  /** Every step keeps the invariant exactly when it is safe; only receive interrupts can be unsafe. */
  lemma NextExact(l: Link, s: Step)
    requires Inv(l)
    ensures Inv(Next(l, s)) <==> Safe(l, s)
  {
    match s
    case Send(m) => SendKeepsInv(l, m);
    case TxIrq(react) => if l.done { TxIrqKeepsInv(l, react); }
    case RxIrq(takes, restart) => if l.ind && l.rxEnabled { RxIrqExact(l, takes, restart); }
    case StartRecv =>
    case StopRecv =>
  }

  ghost predicate SafeRun(l: Link, steps: seq<Step>)
    decreases |steps|
  {
    steps == [] || (Safe(l, steps[0]) && SafeRun(Next(l, steps[0]), steps[1..]))
  }

  lemma {:induction false} RunKeepsInv(l: Link, steps: seq<Step>)
    requires Inv(l) && SafeRun(l, steps)
    ensures Inv(Run(l, steps))
    decreases |steps|
  {
    if steps != [] {
      NextExact(l, steps[0]);
      RunKeepsInv(Next(l, steps[0]), steps[1..]);
    }
  }

  /**
   End-to-end delivery, over every interleaving of sends, done interrupts whose callbacks send, receive
   interrupts that take any part of a message, and receive restarts: the bytes reported to the receiver,
   then what it still holds, then the pending list, are the accepted bytes in order; RECV_DONE stands only
   for a batch consumed whole; and undelivered bytes are never stranded.
  */
  lemma EndToEndDelivery(steps: seq<Step>)
    requires SafeRun(OPENED, steps)
    ensures var l := Run(OPENED, steps);
            && l.accepted == l.delivered + Stream(Rest(l)) + Stream(l.pending)
            && (l.done ==> l.accepted == l.delivered + Stream(l.pending))
            && (l.active == [] ==> l.delivered == l.accepted)
            && (l.delivered != l.accepted ==> l.done || l.ind || Next(l, StartRecv).ind)
            && |l.active| + |l.pending| <= MAX_SEND_RECORD_COUNT
  {
    OpenedInv();
    RunKeepsInv(OPENED, steps);
    InvDelivers(Run(OPENED, steps));
  }

  lemma OpenedInv()
    ensures Inv(OPENED)
  {
  }

  lemma InvDelivers(l: Link)
    requires Inv(l)
    ensures l.accepted == l.delivered + Stream(Rest(l)) + Stream(l.pending)
    ensures l.done ==> l.accepted == l.delivered + Stream(l.pending)
    ensures l.active == [] ==> l.delivered == l.accepted
    ensures l.delivered != l.accepted ==> l.done || l.ind || Next(l, StartRecv).ind
    ensures |l.active| + |l.pending| <= MAX_SEND_RECORD_COUNT
  {
  }

  // ---- Where the saved pointer points ----

  /** h is the end of m, and its pointer stands where that end begins. */
  predicate EndOf(h: Msg, m: Msg) {
    && h.kind == m.kind && |h.data| <= |m.data| && h.data == m.data[|m.data| - |h.data|..]
    && h.addr + |h.data| == m.addr + |m.data|
  }

  /** What is still to be offered is the end of the batch, beginning somewhere in a message. */
  predicate Continues(ms: seq<Msg>, batch: seq<Msg>) {
    ms == [] ||
    (&& |ms| <= |batch| && ms[1..] == batch[|batch| - |ms| + 1..]
     && EndOf(ms[0], batch[|batch| - |ms|]))
  }

  /** h is the end of the batch message that has exactly the list `tail` behind it. */
  predicate InPlace(h: Msg, tail: seq<Msg>, batch: seq<Msg>) {
    |tail| < |batch| && tail == batch[|batch| - |tail|..] && EndOf(h, batch[|batch| - |tail| - 1])
  }

  predicate Aimed(l: Link) { Saved(l) ==> InPlace(l.head, l.tail, l.active) }

  lemma InPlaceContinues(h: Msg, tail: seq<Msg>, batch: seq<Msg>)
    ensures InPlace(h, tail, batch) <==> Continues([h] + tail, batch)
  {
    assert ([h] + tail)[1..] == tail;
  }

  lemma {:induction false} RxWalkContinues(ms: seq<Msg>, takes: nat -> nat, i: nat, batch: seq<Msg>)
    requires Continues(ms, batch)
    ensures var r := RxWalk(ms, takes, i); r.RxStop? ==> Continues([r.head] + r.tail, batch)
    decreases |ms|
  {
    if ms != [] {
      if takes(i) < |ms[0].data| {
        assert ([Advance(ms[0], takes(i))] + ms[1..])[1..] == ms[1..];
      } else {
        assert ms[1..] != [] ==> ms[1..][0] == batch[|batch| - |ms| + 1];
        RxWalkContinues(ms[1..], takes, i + 1, batch);
      }
    }
  }

  lemma WalkEndsInPlace(ms: seq<Msg>, takes: nat -> nat, batch: seq<Msg>)
    requires Continues(ms, batch)
    ensures var r := RxWalk(ms, takes, 0); r.RxStop? ==> InPlace(r.head, r.tail, batch)
  {
    var r := RxWalk(ms, takes, 0);
    RxWalkContinues(ms, takes, 0, batch);
    if r.RxStop? {
      InPlaceContinues(r.head, r.tail, batch);
    }
  }

  /** However often a message has been resumed and stopped again. */
  lemma RxIrqAims(l: Link, takes: nat -> nat, restart: bool)
    requires Aimed(l)
    ensures Aimed(DoRxIrq(l, takes, restart))
  {
    if Saved(l) {
      InPlaceContinues(l.head, l.tail, l.active);
    }
    WalkEndsInPlace(Batch(l), takes, l.active);
    ReceivedAims(l, RxWalk(Batch(l), takes, 0), restart && Saved(l));
  }

  lemma ReceivedAims(l: Link, r: Rx, raised: bool)
    requires r.RxStop? ==> InPlace(r.head, r.tail, l.active)
    ensures Aimed(Received(l, r, raised))
  {
  }

  lemma NextAims(l: Link, s: Step)
    requires Inv(l) && Aimed(l)
    ensures Aimed(Next(l, s))
  {
    match s
    case RxIrq(takes, restart) => RxIrqAims(l, takes, restart);
    case _ =>
  }

  lemma {:induction false} RunAims(l: Link, steps: seq<Step>)
    requires Inv(l) && Aimed(l) && SafeRun(l, steps)
    ensures Aimed(Run(l, steps))
    decreases |steps|
  {
    if steps != [] {
      NextExact(l, steps[0]);
      NextAims(l, steps[0]);
      RunAims(Next(l, steps[0]), steps[1..]);
    }
  }

  /** Until the next start_recv a stopped receiver is told nothing, whatever else happens. */
  lemma StoppedHearsNothing(l: Link, steps: seq<Step>)
    requires forall i | 0 <= i < |steps| :: !steps[i].StartRecv?
    ensures Run(Next(l, StopRecv), steps).delivered == l.delivered
  {
    StoppedStays(Next(l, StopRecv), steps);
  }

  lemma {:induction false} StoppedStays(l: Link, steps: seq<Step>)
    requires !l.rxEnabled && forall i | 0 <= i < |steps| :: !steps[i].StartRecv?
    ensures Run(l, steps).delivered == l.delivered && Run(l, steps).head == l.head
    decreases |steps|
  {
    if steps != [] {
      StoppedStays(Next(l, steps[0]), steps[1..]);
    }
  }

  // ---- A condition callers can meet: no NULL data, no start_recv from inside a receive handler ----

  predicate NonNull(ms: seq<Msg>) {
    forall k | 0 <= k < |ms| :: ms[k].addr != 0
  }

  ghost predicate Polite(s: Step) {
    match s
    case Send(m) => m.addr != 0
    case TxIrq(react) => forall i: nat :: NonNull(react(i))
    case RxIrq(_, restart) => !restart
    case _ => true
  }

  ghost predicate AllNonNull(l: Link) {
    NonNull(l.active) && NonNull(l.pending) && (Saved(l) ==> NonNull(l.tail))
  }

  lemma {:induction false} RxWalkNonNull(ms: seq<Msg>, takes: nat -> nat, i: nat)
    requires NonNull(ms)
    ensures var r := RxWalk(ms, takes, i); r.RxStop? ==> r.head.addr != 0 && NonNull(r.tail)
    decreases |ms|
  {
    if ms != [] && takes(i) >= |ms[0].data| {
      RxWalkNonNull(ms[1..], takes, i + 1);
    }
  }

  lemma {:induction false} SendManyNonNull(used: nat, t: Tx, ms: seq<Msg>)
    requires NonNull(t.pending) && NonNull(ms)
    ensures NonNull(SendMany(used, t, ms).pending)
    decreases |ms|
  {
    if ms != [] {
      SendManyNonNull(used, SendInWalk(used, t, ms[0]), ms[1..]);
    }
  }

  lemma {:induction false} TxWalkNonNull(left: nat, i: nat, t: Tx, react: nat -> seq<Msg>)
    requires NonNull(t.pending) && forall j: nat :: NonNull(react(j))
    ensures NonNull(TxWalk(left, i, t, react).pending)
    decreases left
  {
    if left != 0 {
      SendManyNonNull(left, t, react(i));
      TxWalkNonNull(left - 1, i + 1, SendMany(left, t, react(i)), react);
    }
  }

  lemma PoliteStep(l: Link, s: Step)
    requires AllNonNull(l) && Polite(s)
    ensures Safe(l, s) && AllNonNull(Next(l, s))
  {
    match s {
      case TxIrq(react) => TxWalkNonNull(|l.active|, 0, Tx(l.pending, l.accepted), react);
      case RxIrq(takes, _) => RxWalkNonNull(Batch(l), takes, 0);
      case _ =>
    }
  }

  lemma {:induction false} PoliteRunsAreSafe(l: Link, steps: seq<Step>)
    requires Inv(l) && AllNonNull(l)
    requires forall k | 0 <= k < |steps| :: Polite(steps[k])
    ensures SafeRun(l, steps)
    decreases |steps|
  {
    if steps != [] {
      var s := steps[0];
      assert Polite(s);
      PoliteStep(l, s);
      NextExact(l, s);
      PoliteRunsAreSafe(Next(l, s), steps[1..]);
    }
  }

  // ---- From anywhere, everything accepted can still be delivered ----

  /** A receive handler that always takes n bytes, if there are so many. */
  function Taking(n: nat): nat -> nat { i => n }

  lemma {:induction false} BigTakesFinish(ms: seq<Msg>, n: nat, i: nat)
    requires n >= |Stream(ms)|
    ensures RxWalk(ms, Taking(n), i) == RxDone(Stream(ms))
    decreases |ms|
  {
    if ms != [] {
      BigTakesFinish(ms[1..], n, i + 1);
    }
  }

  lemma {:induction false} QuietTxWalk(left: nat, i: nat, t: Tx)
    ensures TxWalk(left, i, t, j => []) == t
    decreases left
  {
    if left != 0 {
      QuietTxWalk(left - 1, i + 1, t);
    }
  }

  function FlushSize(l: Link): nat { |Stream(Batch(l))| + |Stream(l.active)| + |Stream(l.pending)| }

  /** Two receive and two done interrupts after a restart, with handlers that take whole messages. */
  function Flush(l: Link): seq<Step> {
    var rx, tx := RxIrq(Taking(FlushSize(l)), false), TxIrq(j => []);
    [StartRecv, tx, rx, tx, rx, tx]
  }

  ghost predicate Flushing(l: Link) {
    Inv(l) && l.rxEnabled && !l.done && (l.active != [] ==> l.ind)
  }

  lemma FlushStart(l: Link)
    requires Inv(l)
    ensures var l' := Next(Next(l, StartRecv), TxIrq(j => []));
            && Flushing(l') && l'.accepted == l.accepted && |Stream(Batch(l'))| + |Stream(l'.pending)| <= FlushSize(l)
  {
    var a := Next(l, StartRecv);
    NextExact(l, StartRecv);
    QuietTxWalk(|a.active|, 0, Tx(a.pending, a.accepted));
    NextExact(a, TxIrq(j => []));
  }

  lemma FlushRound(l: Link, n: nat)
    requires Flushing(l) && n >= |Stream(Batch(l))|
    ensures var l' := Next(Next(l, RxIrq(Taking(n), false)), TxIrq(j => []));
            && Flushing(l') && l'.accepted == l.accepted
            && l'.active == Batch(l') == l.pending && l'.pending == []
  {
    if l.active == [] {
      return;
    }
    BigTakesFinish(Batch(l), n, 0);
    var mid := Next(l, RxIrq(Taking(n), false));
    NextExact(l, RxIrq(Taking(n), false));
    QuietTxWalk(|mid.active|, 0, Tx(mid.pending, mid.accepted));
    NextExact(mid, TxIrq(j => []));
  }

  lemma RunTwo(l: Link, steps: seq<Step>)
    requires |steps| >= 2
    ensures Run(l, steps) == Run(Next(Next(l, steps[0]), steps[1]), steps[2..])
  {
    assert steps[1..][1..] == steps[2..];
  }

  lemma FlushTwice(l: Link, n: nat)
    requires Flushing(l) && n >= |Stream(Batch(l))| + |Stream(l.pending)|
    ensures var rx, tx := RxIrq(Taking(n), false), TxIrq(j => []);
            var l' := Run(l, [rx, tx, rx, tx]);
            Inv(l') && l'.accepted == l.accepted && l'.active == l'.pending == []
  {
    var rx, tx := RxIrq(Taking(n), false), TxIrq(j => []);
    var steps, a := [rx, tx, rx, tx], Next(Next(l, rx), tx);
    FlushRound(l, n);
    FlushRound(a, n);
    RunTwo(l, steps);
    RunTwo(a, steps[2..]);
  }

  /** From every state of every safe run, everything accepted so far can still be delivered. */
  lemma AnythingAcceptedCanBeDelivered(l: Link)
    requires Inv(l)
    ensures var l' := Run(l, Flush(l)); l'.active == [] && l'.delivered == l'.accepted == l.accepted
  {
    var f := Flush(l);
    FlushStart(l);
    RunTwo(l, f);
    var b := Next(Next(l, f[0]), f[1]);
    FlushTwice(b, FlushSize(l));
    assert f[2..] == [f[2], f[3], f[2], f[3]];
    assert Stream([]) == [];
  }

  // ---- What goes wrong without the two conditions ----

  ghost predicate Wedged(l: Link) {
    l.active != [] && !l.done && !l.ind && !Saved(l)
  }

  lemma {:induction false} WedgedForever(l: Link, steps: seq<Step>)
    requires Wedged(l)
    ensures Wedged(Run(l, steps)) && Run(l, steps).delivered == l.delivered
    decreases |steps|
  {
    if steps != [] {
      WedgedForever(Next(l, steps[0]), steps[1..]);
    }
  }

  /** A NULL message of which the receiver takes nothing at first is never delivered, whatever happens next. */
  lemma NullDataWedges(b: Byte, later: seq<Step>)
    ensures var m := Msg(0, 0, [b]);
            var l := Next(Next(Next(OPENED, Send(m)), StartRecv), RxIrq(Taking(0), false));
            Run(l, later).delivered == [] && l.accepted == [(0, b)]
  {
    var m := Msg(0, 0, [b]);
    var l := Next(Next(Next(OPENED, Send(m)), StartRecv), RxIrq(Taking(0), false));
    assert RxWalk([m], Taking(0), 0) == RxStop([], m, []);
    WedgedForever(l, later);
  }

  /** One more receive interrupt, whose handlers take everything, reports more bytes than are left to report. */
  ghost predicate Repeats(l: Link) {
    exists n: nat :: TooMany(Next(l, RxIrq(Taking(n), false)))
  }

  predicate TooMany(l: Link) { |l.delivered| + |Stream(l.pending)| > |l.accepted| }

  /** Accepted bytes are missing, and nothing that may happen makes another byte arrive. */
  ghost predicate Stuck(l: Link) {
    l.delivered != l.accepted && forall later: seq<Step> :: Run(l, later).delivered == l.delivered
  }

  /** When a batch that has been reported in part is handed out again, whole, it is reported again. */
  lemma HandedOutAgain(l: Link, reported: seq<Tagged>, left: nat)
    requires l.ind && l.rxEnabled && !Saved(l)
    requires |reported| > 0 && l.delivered == reported && |l.accepted| == left + |Stream(l.pending)|
    requires |reported| + |Stream(l.active)| > left
    ensures TooMany(Next(l, RxIrq(Taking(|Stream(l.active)|), false)))
  {
    BigTakesFinish(l.active, |Stream(l.active)|, 0);
  }

  /**
   A handler that calls start_recv while the rest of a batch is delivered and finished: the interrupt it raises
   delivers the whole batch again, whatever the batch and whatever had been taken of it.
  */
  lemma RestartDuplicates(l: Link, takes: nat -> nat)
    requires Inv(l) && l.ind && l.rxEnabled && Saved(l) && RxWalk(Batch(l), takes, 0).RxDone?
    ensures var l' := DoRxIrq(l, takes, true);
            TooMany(Next(l', RxIrq(Taking(|Stream(l.active)|), false)))
  {
    var l', r := DoRxIrq(l, takes, true), RxWalk(Batch(l), takes, 0);
    RxWalkConserves(Batch(l), takes, 0);
    assert Batch(l)[0] == l.head && |Stream(Batch(l))| >= |l.head.data| > 0;
    assert |l.accepted| == |l.delivered| + |Stream(Batch(l))| + |Stream(l.pending)|;
    HandedOutAgain(l', l.delivered + r.out, |l.delivered| + |Stream(Batch(l))|);
  }

  lemma NullStopHarms(l: Link, takes: nat -> nat, restart: bool)
    requires Inv(l) && l.ind && l.rxEnabled
    requires var r := RxWalk(Batch(l), takes, 0); r.RxStop? && r.head.addr == 0
    ensures var l' := DoRxIrq(l, takes, restart);
            if restart && Saved(l) then TooMany(Next(l', RxIrq(Taking(|Stream(l.active)|), false))) else Stuck(l')
  {
    var l', r := DoRxIrq(l, takes, restart), RxWalk(Batch(l), takes, 0);
    RxWalkConserves(Batch(l), takes, 0);
    assert |l.accepted| == |l.delivered| + |Stream(Batch(l))| + |Stream(l.pending)|;
    if restart && Saved(l) {
      assert Batch(l)[0] == l.head && |r.out| >= |l.head.data| > 0;
      HandedOutAgain(l', l.delivered + r.out, |l.delivered| + |Stream(Batch(l))|);
    } else {
      forall later: seq<Step> ensures Run(l', later).delivered == l'.delivered {
        WedgedForever(l', later);
      }
    }
  }

  lemma NothingRepeats(l: Link, n: nat)
    requires Inv(l)
    ensures !TooMany(Next(l, RxIrq(Taking(n), false)))
  {
    assert |l.accepted| == |l.delivered| + |Stream(Rest(l))| + |Stream(l.pending)|;
    if l.ind && l.rxEnabled {
      RxWalkConserves(Batch(l), Taking(n), 0);
    }
  }

  /**
   The guard is exact by what callers see: after an unsafe step, bytes already reported are reported again at the
   next interrupt, or bytes accepted never arrive; after a safe one neither is so.
  */
  lemma HarmExact(l: Link, s: Step)
    requires Inv(l)
    ensures Repeats(Next(l, s)) || Stuck(Next(l, s)) <==> !Safe(l, s)
  {
    var l' := Next(l, s);
    NextExact(l, s);
    if Safe(l, s) {
      forall n: nat ensures !TooMany(Next(l', RxIrq(Taking(n), false))) {
        NothingRepeats(l', n);
      }
      AnythingAcceptedCanBeDelivered(l');
      assert Stuck(l') ==> Run(l', Flush(l')).delivered == l'.delivered;
    } else if RxWalk(Batch(l), s.takes, 0).RxDone? {
      RestartDuplicates(l, s.takes);
    } else {
      NullStopHarms(l, s.takes, s.restart);
    }
  }

  /** The shortest run to that: one byte arrives twice. */
  lemma RestartInHandlerDuplicates(b: Byte)
    ensures var start, take := RxIrq(Taking(0), false), Taking(1);
            var l := Next(Next(Next(OPENED, Send(Msg(0, 1, [b]))), StartRecv), start);
            var l' := Next(Next(Next(l, StartRecv), RxIrq(take, true)), RxIrq(take, false));
            l'.accepted == [(0, b)] && l'.delivered == [(0, b), (0, b)]
  {
    var m := Msg(0, 1, [b]);
    assert RxWalk([m], Taking(0), 0) == RxStop([], m, []);
    assert [m] + [] == [m];
    assert RxWalk([m], Taking(1), 0) == RxDone(Tag(m));
    assert Tag(m) == [(0, b)];
  }
}
