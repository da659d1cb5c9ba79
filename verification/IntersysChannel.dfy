/**
 The pointer code of platform/hal/hal_intersys.c: a static array of send records threaded onto the active and
 the pending list, walked and recycled by the interrupt routines. A pointer to a record is its index in the
 array. Each method is proved to take exactly the protocol step of IntersysLink.dfy.
*/
module IntersysChannel {
  import opened IntersysLink

  type Ptr = int
  const NULL: Ptr := -1
  const HEAD: Ptr := MAX_SEND_RECORD_COUNT   // &recv_pending_head, the one message outside the array

  /** struct HAL_INTERSYS_SEND_RECORD_T; msg.data carries both the bytes and their number. */
  datatype Record = Record(next: Ptr, msg: Msg, inUse: bool)

  /** The node at position k of a NULL-terminated list. */
  function At(list: seq<nat>, k: nat): Ptr {
    if k < |list| then list[k] else NULL
  }

  predicate Distinct(list: seq<nat>) {
    forall i, j | 0 <= i < j < |list| :: list[i] != list[j]
  }

  /** active[from..] and pending have no record in common and none twice. */
  ghost predicate Apart(active: seq<nat>, from: nat, pending: seq<nat>) {
    && (forall i, j | from <= i < j < |active| :: active[i] != active[j])
    && Distinct(pending)
    && (forall i, j | from <= i < |active| && 0 <= j < |pending| :: active[i] != pending[j])
  }

  predicate InPool(list: seq<nat>) {
    forall k | 0 <= k < |list| :: list[k] < MAX_SEND_RECORD_COUNT
  }

  /** From position `from` on, the list is linked and NULL-terminated. */
  ghost predicate Linked(recs: seq<Record>, list: seq<nat>, from: nat)
    requires |recs| == MAX_SEND_RECORD_COUNT && InPool(list)
  {
    forall k | from <= k < |list| :: recs[list[k]].next == At(list, k + 1)
  }

  ghost predicate Marked(recs: seq<Record>, active: seq<nat>, pending: seq<nat>) {
    forall i | 0 <= i < |recs| :: recs[i].inUse <==> i in active || i in pending
  }

  /**
   The pool invariant on values: the records in use are exactly the nodes of two disjoint, repetition-free,
   NULL-terminated lists. In the done interrupt the first `from` nodes of the active list are freed already
   and may have been recycled into the pending list.
  */
  ghost predicate Threaded(recs: seq<Record>, active: seq<nat>, from: nat, pending: seq<nat>) {
    && |recs| == MAX_SEND_RECORD_COUNT && from <= |active|
    && InPool(active) && InPool(pending)
    && Apart(active, from, pending)
    && Marked(recs, active[from..], pending)
    && Linked(recs, active, from) && Linked(recs, pending, 0)
  }

  predicate KnownKinds(recs: seq<Record>) {
    forall i | 0 <= i < |recs| && recs[i].inUse :: recs[i].msg.kind < MSG_TYPE_QTY
  }

  function Msgs(recs: seq<Record>, list: seq<nat>): (ms: seq<Msg>)
    requires |recs| == MAX_SEND_RECORD_COUNT && InPool(list)
    ensures |ms| == |list| && forall k | 0 <= k < |list| :: ms[k] == recs[list[k]].msg
  {
    seq(|list|, k requires 0 <= k < |list| => recs[list[k]].msg)
  }

  lemma MsgsSame(recs: seq<Record>, recs': seq<Record>, list: seq<nat>)
    requires |recs| == |recs'| == MAX_SEND_RECORD_COUNT && InPool(list)
    requires forall k | 0 <= k < |list| :: recs'[list[k]].msg == recs[list[k]].msg
    ensures Msgs(recs', list) == Msgs(recs, list)
  {
  }

  lemma MsgsFrom(recs: seq<Record>, list: seq<nat>, k: nat)
    requires |recs| == MAX_SEND_RECORD_COUNT && InPool(list) && k < |list|
    ensures Msgs(recs, list)[k..] == [recs[list[k]].msg] + Msgs(recs, list)[k + 1..]
  {
  }

  lemma MsgsAppend(recs: seq<Record>, list: seq<nat>, i: nat)
    requires |recs| == MAX_SEND_RECORD_COUNT && i < |recs| && InPool(list)
    ensures Msgs(recs, list + [i]) == Msgs(recs, list) + [recs[i].msg]
  {
  }

  /** A repetition-free list of records is full exactly when it holds the whole pool. */
  lemma PoolFull(list: seq<nat>)
    requires Distinct(list) && InPool(list)
    ensures |list| >= MAX_SEND_RECORD_COUNT <==> 0 in list && 1 in list && 2 in list
  {
    if |list| >= 3 {
      assert list[0] != list[1] && list[0] != list[2] && list[1] != list[2];
      assert list[0] in list && list[1] in list && list[2] in list;
    }
  }

  /** There is a free record exactly while fewer than three are threaded. */
  lemma FreeIffRoom(recs: seq<Record>, active: seq<nat>, from: nat, pending: seq<nat>)
    requires Threaded(recs, active, from, pending)
    ensures |active| - from + |pending| >= MAX_SEND_RECORD_COUNT <==> recs[0].inUse && recs[1].inUse && recs[2].inUse
  {
    var all := active[from..] + pending;
    assert forall i: nat :: i in all <==> i in active[from..] || i in pending;
    assert Distinct(all);
    PoolFull(all);
  }

  function Appended(recs: seq<Record>, pending: seq<nat>, i: nat, m: Msg): seq<Record>
    requires |recs| == MAX_SEND_RECORD_COUNT && i < |recs| && InPool(pending)
  {
    var filled := recs[i := Record(NULL, m, true)];
    if pending == [] then filled
    else
      var last := pending[|pending| - 1];
      filled[last := filled[last].(next := i)]
  }

  /** Threading a free record behind the pending list keeps the pool invariant. */
  lemma AppendKeepsThreaded(recs: seq<Record>, active: seq<nat>, from: nat, pending: seq<nat>, i: nat, m: Msg)
    requires Threaded(recs, active, from, pending) && i < |recs| && !recs[i].inUse
    ensures var linked := Appended(recs, pending, i, m);
            && Threaded(linked, active, from, pending + [i])
            && linked[i].msg == m
            && forall j | 0 <= j < |recs| && j != i :: linked[j].msg == recs[j].msg
  {
    assert i !in active[from..] && i !in pending;
    assert forall k | from <= k < |active| :: active[k] in active[from..];
    assert InPool(pending + [i]);
    AppendApart(active, from, pending, i);
    AppendMarked(recs, active[from..], pending, i, m);
    AppendLinked(recs, active, from, pending, i, m);
  }

  lemma AppendKinds(recs: seq<Record>, pending: seq<nat>, i: nat, m: Msg)
    requires |recs| == MAX_SEND_RECORD_COUNT && i < |recs| && InPool(pending)
    requires KnownKinds(recs) && m.kind < MSG_TYPE_QTY && forall k | 0 <= k < |pending| :: recs[pending[k]].inUse
    ensures KnownKinds(Appended(recs, pending, i, m))
  {
  }

  /** A record that is not in use is in neither list. */
  lemma FreshApart(recs: seq<Record>, active: seq<nat>, from: nat, pending: seq<nat>, i: nat)
    requires Threaded(recs, active, from, pending) && i < |recs| && !recs[i].inUse
    ensures i !in pending && forall k | from <= k < |active| :: active[k] != i
  {
    assert forall k | from <= k < |active| :: active[k] in active[from..];
  }

  lemma AppendApart(active: seq<nat>, from: nat, pending: seq<nat>, i: nat)
    requires Apart(active, from, pending) && i !in pending
    requires forall k | from <= k < |active| :: active[k] != i
    ensures Apart(active, from, pending + [i])
  {
  }

  lemma AppendMarked(recs: seq<Record>, a: seq<nat>, pending: seq<nat>, i: nat, m: Msg)
    requires |recs| == MAX_SEND_RECORD_COUNT && i < |recs| && InPool(pending) && Marked(recs, a, pending)
    ensures Marked(Appended(recs, pending, i, m), a, pending + [i])
  {
  }

  lemma AppendLinked(recs: seq<Record>, active: seq<nat>, from: nat, pending: seq<nat>, i: nat, m: Msg)
    requires |recs| == MAX_SEND_RECORD_COUNT && InPool(active) && InPool(pending) && Apart(active, from, pending)
    requires Linked(recs, active, from) && Linked(recs, pending, 0)
    requires i < |recs| && i !in pending && forall k | from <= k < |active| :: active[k] != i
    ensures var linked := Appended(recs, pending, i, m);
            InPool(pending + [i]) && Linked(linked, active, from) && Linked(linked, pending + [i], 0)
  {
    var linked, p' := Appended(recs, pending, i, m), pending + [i];
    forall k | 0 <= k < |p'| ensures linked[p'[k]].next == At(p', k + 1) {
      if k + 1 < |pending| {
        assert pending[k] != pending[|pending| - 1] && pending[k] != i;
      }
    }
  }

  /** Freeing the record the done interrupt has just reported keeps the pool invariant. */
  lemma FreeKeepsThreaded(recs: seq<Record>, active: seq<nat>, from: nat, pending: seq<nat>)
    requires Threaded(recs, active, from, pending) && from < |active|
    ensures var i := active[from];
            Threaded(recs[i := recs[i].(inUse := false)], active, from + 1, pending)
  {
    assert active[from..] == [active[from]] + active[from + 1..];
    assert forall k | from < k < |active| :: active[k] != active[from];
  }

  /** What the walk of the done interrupt still has to do, behind the first i of n records, leads to the goal. */
  predicate Remains(n: nat, i: nat, t: Tx, react: nat -> seq<Msg>, goal: Tx) {
    i <= n && goal == TxWalk(n - i, i, t, react)
  }

  lemma TxWalkStep(n: nat, i: nat, t: Tx, react: nat -> seq<Msg>, t': Tx, goal: Tx)
    requires i < n && t' == SendMany(n - i, t, react(i)) && Remains(n, i, t, react, goal)
    ensures Remains(n, i + 1, t', react, goal)
  {
  }

  function Prefixed(out: seq<Tagged>, r: Rx): Rx {
    r.(out := out + r.out)
  }

  lemma PrefixNothing(r: Rx)
    ensures Prefixed([], r) == r
  {
    assert [] + r.out == r.out;
  }

  lemma PrefixEnd(out: seq<Tagged>)
    ensures Prefixed(out, RxDone([])) == RxDone(out)
  {
    assert out + [] == out;
  }

  lemma RxWalkStep(out: seq<Tagged>, ms: seq<Msg>, takes: nat -> nat, i: nat)
    requires ms != [] && takes(i) >= |ms[0].data|
    ensures Prefixed(out, RxWalk(ms, takes, i)) == Prefixed(out + Tag(ms[0]), RxWalk(ms[1..], takes, i + 1))
  {
    var r := RxWalk(ms[1..], takes, i + 1);
    assert out + (Tag(ms[0]) + r.out) == out + Tag(ms[0]) + r.out;
  }

  lemma ReceiveIsNext(l: Link, takes: nat -> nat, restart: bool)
    requires l.ind && l.rxEnabled
    ensures var raised := restart && Saved(l);
            Received(l.(ind := raised), RxWalk(Batch(l), takes, 0), raised) == Next(l, RxIrq(takes, restart))
  {
  }

  lemma SendIsNext(l: Link, m: Msg, r: Link)
    requires l.active == [] ==> l.pending == []
    requires if m.kind >= MSG_TYPE_QTY || |l.active| + |l.pending| >= MAX_SEND_RECORD_COUNT then r == l
             else r == l.(active := if l.active == [] then [m] else l.active, ind := l.ind || l.active == [],
                          pending := if l.active == [] then [] else l.pending + [m],
                          accepted := l.accepted + Tag(m))
    ensures r == Next(l, Send(m))
  {
  }

  lemma TxIsNext(l: Link, react: nat -> seq<Msg>, r: Link)
    requires l.done && !Saved(l) && l.tail == []
    requires var t := TxWalk(|l.active|, 0, Tx(l.pending, l.accepted), react);
             r == Link(t.pending, [], l.head, l.tail, l.ind || t.pending != [], false, l.rxEnabled, t.accepted,
                       l.delivered)
    ensures r == Next(l, TxIrq(react))
  {
  }

  /** The list heads, and no pending list without a batch. */
  ghost predicate Anchored(sendList: Ptr, pendingList: Ptr, active: seq<nat>, pending: seq<nat>) {
    sendList == At(active, 0) && pendingList == At(pending, 0) && (pending != [] ==> active != [])
  }

  /** A saved remainder continues inside the active list. */
  ghost predicate SavedOk(head: Record, active: seq<nat>, rest: nat) {
    active != [] && rest <= |active| && head.next == At(active, rest) && head.msg.kind < MSG_TYPE_QTY
  }

  function Deref(recs: seq<Record>, head: Record, p: Ptr): Record
    requires 0 <= p < |recs| || p == HEAD
  {
    if p == HEAD then head else recs[p]
  }

  /** The receive walk is at p: the messages `left` are still to be offered, the next one being node nx. */
  ghost predicate Cursor(recs: seq<Record>, head: Record, active: seq<nat>, p: Ptr, nx: nat, left: seq<Msg>) {
    && |recs| == MAX_SEND_RECORD_COUNT && InPool(active) && nx <= |active|
    && if p == NULL then left == []
       else && active != [] && (0 <= p < |recs| || p == HEAD)
            && left == [Deref(recs, head, p).msg] + Msgs(recs, active)[nx..]
            && Deref(recs, head, p).next == At(active, nx)
            && Deref(recs, head, p).msg.kind < MSG_TYPE_QTY
  }

  lemma CursorAt(recs: seq<Record>, head: Record, active: seq<nat>, pending: seq<nat>, k: nat)
    requires Threaded(recs, active, 0, pending) && KnownKinds(recs) && k < |active|
    ensures Cursor(recs, head, active, active[k], k + 1, Msgs(recs, active)[k..])
  {
    assert active[0..] == active;
    assert recs[active[k]].inUse;
    MsgsFrom(recs, active, k);
  }

  lemma CursorNext(recs: seq<Record>, head: Record, active: seq<nat>, pending: seq<nat>, p: Ptr, nx: nat,
                   left: seq<Msg>)
    requires Threaded(recs, active, 0, pending) && KnownKinds(recs)
    requires Cursor(recs, head, active, p, nx, left) && p != NULL
    ensures Cursor(recs, head, active, Deref(recs, head, p).next, After(active, nx), left[1..])
  {
    assert left[1..] == Msgs(recs, active)[nx..];
    if nx < |active| {
      CursorAt(recs, head, active, pending, nx);
    }
  }

  function After(active: seq<nat>, nx: nat): nat {
    if nx < |active| then nx + 1 else nx
  }

  class Channel {
    var recs: seq<Record>          // send_msgs
    var head: Record               // recv_pending_head
    var sendList: Ptr              // send_msg_list_p
    var pendingList: Ptr           // send_pending_list_p
    var isOpen: bool               // chan_opened
    var busy: bool                 // chan_busy
    var ind: bool                  // SEND_IND latched at the receiver
    var done: bool                 // RECV_DONE latched at the sender
    var rxEnabled: bool

    ghost var active: seq<nat>
    ghost var pending: seq<nat>
    ghost var walked: nat          // nodes of the active list the running done interrupt has freed
    ghost var rest: nat            // a saved remainder goes on at active[rest..]
    ghost var accepted: seq<Tagged>
    ghost var delivered: seq<Tagged>

    /** The pool/list invariant, also in the middle of the done interrupt. */
    ghost predicate Lists()
      reads this
    {
      && Threaded(recs, active, walked, pending) && KnownKinds(recs)
      && Anchored(sendList, pendingList, active, pending)
      && (head.msg.addr != 0 ==> walked == 0 && SavedOk(head, active, rest))
    }

    /** Outside the done interrupt: in addition the channel is busy exactly while a batch is out. */
    ghost predicate Valid()
      reads this
    {
      Lists() && walked == 0 && (busy <==> active != [])
    }

    ghost function State(): Link
      reads this
      requires Lists()
    {
      Link(Msgs(recs, active), Msgs(recs, pending),
           head.msg, if head.msg.addr != 0 then Msgs(recs, active)[rest..] else [],
           ind, done, rxEnabled, accepted, delivered)
    }

    /** A channel that hal_intersys_open has just set up. */
    constructor ()
      ensures Valid() && isOpen && State() == OPENED
    {
      recs := seq(MAX_SEND_RECORD_COUNT, _ => Record(NULL, Msg(0, 0, []), false));
      head := Record(NULL, Msg(0, 0, []), false);
      sendList, pendingList, isOpen, busy, ind, done, rxEnabled := NULL, NULL, true, false, false, false, false;
      active, pending, walked, rest, accepted, delivered := [], [], 0, 0, [], [];
    }

    /** The search of hal_intersys_send: the first record that is not in use. */
    method FindFree() returns (i: nat)
      requires Lists()
      ensures if |active| - walked + |pending| < MAX_SEND_RECORD_COUNT then i < |recs| && !recs[i].inUse
              else i == |recs|
    {
      FreeIffRoom(recs, active, walked, pending);
      i := 0;
      while i < |recs| && recs[i].inUse
        invariant i <= |recs|
        invariant forall j | 0 <= j < i :: recs[j].inUse
      {
        i := i + 1;
      }
    }

    /** The tail walk of hal_intersys_send. */
    method LastPending() returns (node: nat)
      requires pending != [] && |recs| == MAX_SEND_RECORD_COUNT && InPool(pending) && Linked(recs, pending, 0)
      requires pendingList == pending[0]
      ensures node == pending[|pending| - 1]
    {
      node := pendingList;
      ghost var k := 0;
      while recs[node].next != NULL
        invariant k < |pending| && node == pending[k]
        decreases |pending| - k
      {
        assert recs[pending[k]].next == At(pending, k + 1);
        node := recs[node].next;
        k := k + 1;
      }
      assert recs[pending[k]].next == At(pending, k + 1);
    }

    /** The pointer code of a send while a batch is out. */
    method LinkLast(i: nat, m: Msg)
      requires Threaded(recs, active, walked, pending) && pendingList == At(pending, 0)
      requires i < |recs| && !recs[i].inUse
      modifies this`pendingList, this`recs
      ensures recs == Appended(old(recs), pending, i, m) && pendingList == At(pending + [i], 0)
    {
      ghost var was := recs;
      recs := recs[i := Record(NULL, m, true)];
      if pendingList == NULL {
        pendingList := i;
      } else {
        FreshApart(was, active, walked, pending, i);
        AppendLinked(was, active, walked, [], i, m);
        var last := LastPending();
        recs := recs[last := recs[last].(next := i)];
      }
    }

    /** A send while a batch is out: the record goes to the end of the pending list. */
    method AppendPending(i: nat, m: Msg)
      requires Lists() && i < |recs| && !recs[i].inUse && active != [] && m.kind < MSG_TYPE_QTY
      modifies this`pendingList, this`pending, this`recs
      ensures Lists() && pending == old(pending) + [i]
      ensures recs == Appended(old(recs), old(pending), i, m)
    {
      AppendKeepsThreaded(recs, active, walked, pending, i, m);
      AppendKinds(recs, pending, i, m);
      LinkLast(i, m);
      pending := pending + [i];
    }

    /** A send to an idle channel: the record is the batch, and the peer is interrupted. */
    method StartBatch(i: nat, m: Msg)
      requires Lists() && i < |recs| && !recs[i].inUse && active == [] && m.kind < MSG_TYPE_QTY
      modifies this`sendList, this`active, this`ind, this`recs
      ensures Lists() && active == [i] && Msgs(recs, active) == [m] && ind
    {
      ghost var was := recs;
      recs := recs[i := Record(NULL, m, true)];
      sendList := i;
      active := [i];
      ind := true;
    }

    /** Messages already threaded are not touched by threading another one. */
    twostate predicate KeepsInUse()
      reads this
    {
      && |recs| == old(|recs|)
      && forall i | 0 <= i < |recs| && old(recs[i].inUse) :: recs[i].inUse && recs[i].msg == old(recs[i].msg)
    }

    method AppendMsg(i: nat, m: Msg)
      requires Lists() && i < |recs| && !recs[i].inUse && active != [] && m.kind < MSG_TYPE_QTY
      modifies this`pendingList, this`pending, this`recs
      ensures Lists()
      ensures KeepsInUse()
      ensures Msgs(recs, pending) == old(Msgs(recs, pending)) + [m]
      ensures walked == 0 ==> Msgs(recs, active) == old(Msgs(recs, active))
    {
      ghost var was, list := recs, pending;
      AppendKeepsThreaded(was, active, walked, list, i, m);
      AppendPending(i, m);
      MsgsSame(was, recs, list);
      MsgsAppend(recs, list, i);
      if walked == 0 {
        assert forall k | 0 <= k < |active| :: active[k] in active[0..] && was[active[k]].inUse;
        MsgsSame(was, recs, active);
      }
    }

    /** What hal_intersys_send does when it takes the message: it becomes the batch, or the last pending one. */
    twostate predicate Taken(m: Msg)
      reads this
    {
      && Lists() && old(Lists()) && accepted == old(accepted) + Tag(m) && busy
      && if old(active) == [] then Msgs(recs, active) == [m] && pending == [] && ind
         else && active == old(active) && ind == old(ind)
              && Msgs(recs, pending) == old(Msgs(recs, pending)) + [m]
              && (walked == 0 ==> Msgs(recs, active) == old(Msgs(recs, active)))
    }

    twostate predicate Untouched()
      reads this
    {
      && active == old(active) && pending == old(pending) && recs == old(recs) && ind == old(ind)
      && accepted == old(accepted) && busy == old(busy)
    }

    /** What hal_intersys_send returning ret has done. */
    twostate predicate Sent(m: Msg, ret: int)
      reads this
    {
      && Lists() && old(Lists()) && KeepsInUse()
      && ret == (if m.kind >= MSG_TYPE_QTY then 2 else if !isOpen then 3
                 else if old(|active| - walked + |pending|) < MAX_SEND_RECORD_COUNT then 0 else -1)
      && if ret == 0 then Taken(m) else Untouched()
    }

    /** A free record has been found. */
    method Accept(i: nat, m: Msg)
      requires Lists() && i < |recs| && !recs[i].inUse && m.kind < MSG_TYPE_QTY
      modifies this`sendList, this`pendingList, this`active, this`pending, this`ind, this`accepted, this`busy, this`recs
      ensures Lists() && KeepsInUse() && Taken(m)
    {
      accepted := accepted + Tag(m);
      busy := true;
      if sendList == NULL {
        StartBatch(i, m);
      } else {
        AppendMsg(i, m);
      }
    }

    /**
     hal_intersys_send from any context: also from a callback of the done interrupt, when records the walk has
     freed are recycled behind its back.
    */
    method SendAnywhere(m: Msg) returns (ret: int)
      requires Lists()
      modifies this`sendList, this`pendingList, this`active, this`pending, this`ind, this`accepted, this`busy, this`recs
      ensures Sent(m, ret)
    {
      if m.kind >= MSG_TYPE_QTY {
        return 2;
      }
      if !isOpen {
        return 3;
      }
      var i := FindFree();
      if i == |recs| {
        return -1;
      }
      Accept(i, m);
      return 0;
    }

    /** hal_intersys_send outside the done interrupt is the protocol's Send step. */
    method Send(m: Msg) returns (ret: int)
      requires Valid() && isOpen
      modifies this`sendList, this`pendingList, this`active, this`pending, this`ind, this`accepted, this`busy, this`recs
      ensures Valid() && State() == Next(old(State()), IntersysLink.Send(m))
      ensures ret == 0 <==> m.kind < MSG_TYPE_QTY && old(|active| + |pending|) < MAX_SEND_RECORD_COUNT
    {
      ghost var l := State();
      ret := SendAnywhere(m);
      SendIsNext(l, m, State());
    }

    ghost function Walk(): Tx
      reads this
      requires Lists()
    {
      Tx(Msgs(recs, pending), accepted)
    }

    ghost predicate Walking(batch: seq<nat>)
      reads this
    {
      Lists() && active == batch && isOpen && (batch != [] ==> busy) && head.msg.addr == 0
    }

    /** The transmit callback for a record of the batch: any sequence of sends. */
    method Callback(node: nat, ms: seq<Msg>, ghost left: nat, ghost t: Tx)
      requires Walking(active) && walked < |active| && left == |active| - walked && t == Walk()
      requires node == active[walked]
      modifies this`sendList, this`pendingList, this`active, this`pending, this`ind, this`accepted, this`busy, this`recs
      ensures Walking(old(active)) && ind == old(ind)
      ensures Walk() == SendMany(left, t, ms)
    {
      assert node in active[walked..];
      assert recs[node].msg.kind < MSG_TYPE_QTY;     // the assertion of line 246 cannot fire
      ghost var batch := active;
      var j := 0;
      while j < |ms|
        invariant j <= |ms|
        invariant Walking(batch) && ind == old(ind)
        invariant SendMany(left, Walk(), ms[j..]) == SendMany(left, t, ms)
      {
        assert ms[j..][1..] == ms[j + 1..];
        var _ := SendAnywhere(ms[j]);
        j := j + 1;
      }
    }

    /** The rest of a round of the done walk: free the reported record and go on to its successor. */
    method Free(node: nat) returns (next: Ptr)
      requires Walking(active) && walked < |active| && node == active[walked]
      modifies this`recs, this`walked
      ensures Walking(active) && walked == old(walked) + 1 && next == At(active, walked) && Walk() == old(Walk())
    {
      FreeKeepsThreaded(recs, active, walked, pending);
      ghost var was := recs;
      recs := recs[node := recs[node].(inUse := false)];
      next := recs[node].next;
      walked := walked + 1;
      MsgsSame(was, recs, pending);
    }

    /** One round of the done walk: the callback, then freeing the record. */
    method Report(node: nat, ms: seq<Msg>, ghost left: nat, ghost t: Tx) returns (next: Ptr)
      requires Walking(active) && walked < |active| && left == |active| - walked && t == Walk()
      requires node == active[walked]
      modifies this`sendList, this`pendingList, this`active, this`pending, this`ind, this`accepted, this`busy, this`recs
      modifies this`walked
      ensures Walking(old(active)) && ind == old(ind) && walked == old(walked) + 1
      ensures next == At(active, walked) && Walk() == SendMany(left, t, ms)
    {
      Callback(node, ms, left, t);
      next := Free(node);
    }

    /** The walk of the done interrupt has come to node, the i-th of the batch, or to the end. */
    ghost predicate WalkAt(batch: seq<nat>, i: nat, node: Ptr)
      reads this
    {
      Walking(batch) && i == walked && node == At(batch, i)
    }

    /** The walk of the done interrupt over the batch. */
    method WalkBatch(react: nat -> seq<Msg>, ghost goal: Tx)
      requires Walking(active) && walked == 0 && goal == TxWalk(|active|, 0, Walk(), react)
      modifies this`sendList, this`pendingList, this`active, this`pending, this`ind, this`accepted, this`busy, this`recs
      modifies this`walked
      ensures Walking(old(active)) && walked == |active| && ind == old(ind) && Walk() == goal
    {
      ghost var batch, was := active, ind;
      var node, i := sendList, 0;
      while node != NULL
        invariant WalkAt(batch, i, node) && ind == was && Remains(|batch|, i, Walk(), react, goal)
        decreases |batch| - i
      {
        ghost var t := Walk();
        node := Report(node, react(i), |batch| - i, t);
        TxWalkStep(|batch|, i, t, react, Walk(), goal);
        i := i + 1;
      }
    }

    /**
     The done interrupt. The callback for the i-th record sends the messages react(i), whatever they are, while
     the walk is at that record; records freed earlier in the same walk are free for them. The protocol's invariant
     says that nothing is saved while it is due.
    */
    method TxIrq(react: nat -> seq<Msg>)
      requires Valid() && isOpen && done && IntersysLink.Inv(State())
      modifies this`sendList, this`pendingList, this`active, this`pending, this`ind, this`accepted, this`busy, this`recs
      modifies this`done, this`walked
      ensures Valid() && State() == Next(old(State()), IntersysLink.TxIrq(react))
    {
      assert !Saved(State());
      FinishBatch(react);
    }

    method FinishBatch(react: nat -> seq<Msg>)
      requires Valid() && isOpen && done && head.msg.addr == 0
      modifies this`sendList, this`pendingList, this`active, this`pending, this`ind, this`accepted, this`busy, this`recs
      modifies this`done, this`walked
      ensures Valid() && State() == Next(old(State()), IntersysLink.TxIrq(react))
    {
      ghost var l := State();
      done := false;
      WalkBatch(react, TxWalk(|active|, 0, Walk(), react));
      SwapLists();
      TxIsNext(l, react, State());
    }

    /** The end of the done interrupt: the pending list becomes the next batch. */
    method SwapLists()
      requires Lists() && walked == |active| && (active != [] ==> busy) && head.msg.addr == 0
      modifies this`sendList, this`pendingList, this`active, this`pending, this`ind, this`busy, this`walked
      ensures Valid() && Msgs(recs, active) == old(Msgs(recs, pending)) && pending == []
      ensures ind == (old(ind) || active != [])
    {
      assert active[walked..] == [];
      if pendingList != NULL {
        sendList, pendingList := pendingList, NULL;
        active, pending, walked := pending, [], 0;
        ind := true;
        assert active[0..] == active;
      } else {
        sendList := NULL;
        active, walked := [], 0;
        busy := false;
      }
    }

    /** hal_intersys_start_recv: a saved remainder raises the interrupt again. */
    method StartRecv()
      requires Valid()
      modifies this`rxEnabled, this`ind
      ensures Valid() && State() == Next(old(State()), IntersysLink.StartRecv)
      ensures rxEnabled && ind == (old(ind) || head.msg.addr != 0)
    {
      rxEnabled := true;
      if head.msg.addr != 0 {
        ind := true;
      }
    }

    method StopRecv()
      requires Valid()
      modifies this`rxEnabled
      ensures Valid() && State() == Next(old(State()), IntersysLink.StopRecv)
      ensures !rxEnabled
    {
      rxEnabled := false;
    }

    /** Where the receive walk starts: the saved remainder, or the batch the sender has published. */
    method StartWalk() returns (p: Ptr, ghost nx: nat, ghost left: seq<Msg>)
      requires Valid()
      ensures Cursor(recs, head, active, p, nx, left) && left == Batch(State())
    {
      left := Batch(State());
      if head.msg.addr != 0 {
        p, nx := HEAD, rest;
      } else {
        p, nx := sendList, 0;
        if active != [] {
          CursorAt(recs, head, active, pending, 0);
          assert active[0..] == active;
          nx := 1;
        }
      }
    }

    /** The handler calls of one receive interrupt; a handler that takes less than it is offered ends it. */
    method WalkMessages(p0: Ptr, takes: nat -> nat, ghost nx0: nat, ghost left0: seq<Msg>)
        returns (stopped: bool, saved: Record, ghost nx: nat, ghost out: seq<Tagged>)
      requires Threaded(recs, active, 0, pending) && KnownKinds(recs)
      requires Cursor(recs, head, active, p0, nx0, left0)
      ensures var r := RxWalk(left0, takes, 0);
              && out == r.out && stopped == r.RxStop?
              && (stopped ==> saved.msg == r.head && SavedOk(saved, active, nx) && Msgs(recs, active)[nx..] == r.tail)
    {
      nx, out, stopped, saved := nx0, [], false, head;
      ghost var left, goal := left0, RxWalk(left0, takes, 0);
      PrefixNothing(goal);
      var p, i := p0, 0;
      while p != NULL
        invariant Cursor(recs, head, active, p, nx, left) && goal == Prefixed(out, RxWalk(left, takes, i))
        decreases |left|
      {
        var node, n := Deref(recs, head, p), takes(i);
        if n < |node.msg.data| {
          saved := Record(node.next, Advance(node.msg, n), head.inUse);
          return true, saved, nx, out + Tag(node.msg)[..n];
        }
        RxWalkStep(out, left, takes, i);
        CursorNext(recs, head, active, pending, p, nx, left);
        out, left, nx := out + Tag(node.msg), left[1..], After(active, nx);
        p := node.next;
        i := i + 1;
      }
      PrefixEnd(out);
    }

    /** The end of a receive interrupt: the remainder is saved, or the sender is interrupted. */
    method Conclude(stopped: bool, saved: Record, ghost nx: nat, ghost r: Rx)
      requires Valid() && stopped == r.RxStop?
      requires stopped ==> saved.msg == r.head && SavedOk(saved, active, nx) && Msgs(recs, active)[nx..] == r.tail
      modifies this`head, this`rest, this`done, this`delivered
      ensures Valid() && State() == Received(old(State()), r, ind)
    {
      if stopped {
        head, rest := saved, nx;
      } else {
        done := true;
        head := head.(msg := head.msg.(addr := 0));
      }
      delivered := delivered + r.out;
    }

    /** The handler calls and the end of a receive interrupt. */
    method Deliver(p: Ptr, takes: nat -> nat, ghost nx0: nat, ghost left: seq<Msg>)
      requires Valid() && Cursor(recs, head, active, p, nx0, left)
      modifies this`head, this`rest, this`done, this`delivered
      ensures Valid() && State() == Received(old(State()), RxWalk(left, takes, 0), ind)
    {
      var stopped, saved, nx, _ := WalkMessages(p, takes, nx0, left);
      Conclude(stopped, saved, nx, RxWalk(left, takes, 0));
    }

    /** The start of a receive interrupt; the first handler call may call start_recv. */
    method Begin(restart: bool) returns (p: Ptr, ghost nx: nat, ghost left: seq<Msg>)
      requires Valid() && ind && rxEnabled
      modifies this`ind, this`rxEnabled
      ensures Valid() && Cursor(recs, head, active, p, nx, left) && left == Batch(old(State()))
      ensures State() == old(State()).(ind := restart && Saved(State()))
    {
      ind := false;
      p, nx, left := StartWalk();
      if restart && p != NULL {
        StartRecv();
      }
    }

    /**
     The receive interrupt. The i-th handler call takes takes(i) bytes; with `restart` a handler also calls
     start_recv, which looks at recv_pending_head as it stands while the handlers run.
    */
    method RxIrq(takes: nat -> nat, restart: bool)
      requires Valid() && ind && rxEnabled
      modifies this`head, this`ind, this`done, this`rest, this`delivered, this`rxEnabled
      ensures Valid() && State() == Next(old(State()), IntersysLink.RxIrq(takes, restart))
      ensures Aimed(old(State())) ==> Aimed(State())
    {
      ghost var l := State();
      var p, nx0, left := Begin(restart);
      Deliver(p, takes, nx0, left);
      ReceiveIsNext(l, takes, restart);
      if Aimed(l) {
        RxIrqAims(l, takes, restart);
      }
    }

    /** The done interrupt, which comes only if it is latched. */
    method TxLatch(react: nat -> seq<Msg>)
      requires Valid() && isOpen && IntersysLink.Inv(State())
      modifies this`sendList, this`pendingList, this`active, this`pending, this`ind, this`accepted, this`busy, this`recs
      modifies this`done, this`walked
      ensures Valid() && State() == Next(old(State()), IntersysLink.TxIrq(react))
    {
      if done {
        TxIrq(react);
      }
    }

    /** The receive interrupt, which comes only if it is latched and not masked. */
    method RxLatch(takes: nat -> nat, restart: bool)
      requires Valid()
      modifies this`head, this`ind, this`done, this`rest, this`delivered, this`rxEnabled
      ensures Valid() && State() == Next(old(State()), IntersysLink.RxIrq(takes, restart))
    {
      if ind && rxEnabled {
        RxIrq(takes, restart);
      }
    }

    /** A latched interrupt of either side. */
    method Interrupt(s: Step)
      requires Valid() && isOpen && IntersysLink.Inv(State()) && (s.TxIrq? || s.RxIrq?)
      modifies this`sendList, this`pendingList, this`active, this`pending, this`ind, this`accepted, this`busy, this`recs
      modifies this`done, this`walked, this`head, this`rest, this`delivered, this`rxEnabled
      ensures Valid() && State() == Next(old(State()), s)
    {
      match s
      case TxIrq(react) => TxLatch(react);
      case RxIrq(takes, restart) => RxLatch(takes, restart);
    }

    /** A call of the application. */
    method Call(s: Step)
      requires Valid() && isOpen && IntersysLink.Inv(State()) && (s.Send? || s.StartRecv? || s.StopRecv?)
      modifies this
      ensures Valid() && isOpen && State() == Next(old(State()), s)
    {
      match s
      case Send(m) => var _ := Send(m);
      case StartRecv => StartRecv();
      case StopRecv => StopRecv();
    }

    /** One step of the protocol. */
    method Perform(s: Step)
      requires Valid() && isOpen && IntersysLink.Inv(State())
      modifies this
      ensures Valid() && isOpen && State() == Next(old(State()), s)
    {
      if s.TxIrq? || s.RxIrq? {
        Interrupt(s);
      } else {
        Call(s);
      }
    }
  }

  lemma RunLast(l: Link, steps: seq<Step>, s: Step)
    ensures Run(l, steps + [s]) == Next(Run(l, steps), s)
    ensures SafeRun(l, steps + [s]) <==> SafeRun(l, steps) && Safe(Run(l, steps), s)
    decreases |steps|
  {
    if steps == [] {
      assert (steps + [s])[1..] == [];
    } else {
      assert (steps + [s])[0] == steps[0] && (steps + [s])[1..] == steps[1..] + [s];
      RunLast(Next(l, steps[0]), steps[1..], s);
    }
  }

  /** Any safe series of steps on a channel just opened: the records and lists do what the protocol does. */
  method Serve(steps: seq<Step>) returns (c: Channel)
    requires SafeRun(OPENED, steps)
    ensures c.Valid() && c.State() == Run(OPENED, steps) && IntersysLink.Inv(c.State())
    ensures c.accepted == c.delivered + Stream(Rest(c.State())) + Stream(Msgs(c.recs, c.pending))
    ensures Aimed(c.State())
    ensures fresh(c) && c.isOpen
    decreases |steps|
  {
    OpenedInv();
    RunAims(OPENED, steps);
    if steps == [] {
      c := new Channel();
    } else {
      var before, s := steps[..|steps| - 1], steps[|steps| - 1];
      assert steps == before + [s];
      RunLast(OPENED, before, s);
      c := Serve(before);
      c.Perform(s);
      RunKeepsInv(OPENED, steps);
    }
  }
}
