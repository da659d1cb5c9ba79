/**
 The linked list of mbed/common/ticker_api.c and the periodic events of mbed/common/Ticker.cpp, whose callbacks may
 set and cancel any events while the interrupt drains the list. Events are
 heap objects chained through `next`; the ghost `evs` lists them with the unwrapped times they stand for.
*/
module TickerQueue {
  import opened TickerSpec

  /** The low 32 bits of a sum of times are the 32-bit sum of their low halves. */
  lemma StampAdd(a: int, d: Stamp)
    ensures ToStamp(a + d) == (ToStamp(a) + d) % TWO32
  {
    var k := a / TWO32;
    assert a == k * TWO32 + a % TWO32;
    ModShift(a % TWO32 + d, k);
  }

  /** The time stamp that setup computes stands for a time inside the window. */
  lemma SetupTime(q: seq<Ev<Event>>, e: Event, t: Stamp, clock: Stamp, now: int, late: nat, ahead: nat)
    requires Within(q, now, late, ahead) && t <= ahead && late + ahead < TWO31 && clock == ToStamp(now)
    ensures (t + clock) % TWO32 == ToStamp(now + t) && InWindow(Without(q, e), now + t)
  {
    StampAdd(now, t);
    WithoutSpans(q, e, now - late, now, ahead);
    WithinOneWindow(Without(q, e), now, late, ahead, now + t);
  }

  predicate InWindow(q: seq<Ev<Event>>, due: int) {
    forall i | 0 <= i < |q| :: -TWO31 <= due - q[i].due < TWO31
  }

  /** A TimerEvent: a Ticker inserts itself again after each firing, a Timeout does not. */
  class Event {
    var timestamp: Stamp
    var next: Event?
    var delay: Stamp
    const periodic: bool

    constructor (periodic: bool)
      ensures this.periodic == periodic
    {
      this.periodic := periodic;
      timestamp, next, delay := 0, null, 0;
    }
  }

  /** The compare register of the hardware timer. */
  datatype Compare = Disabled | Armed(at: Stamp)

  function Ids(evs: seq<Ev<Event>>): (ids: seq<Event>)
    ensures |ids| == |evs| && forall i | 0 <= i < |evs| :: ids[i] == evs[i].id
  {
    if evs == [] then [] else [evs[0].id] + Ids(evs[1..])
  }

  function At(ids: seq<Event>, i: nat): Event? {
    if i < |ids| then ids[i] else null
  }

  /** What the `next` field of the i-th event must hold. */
  function NextOf(ids: seq<Event>, i: nat): Event? { At(ids, i + 1) }

  /** The list from head visits exactly ids, each once, and ends. */
  ghost predicate Chain(head: Event?, ids: seq<Event>)
    reads ids
  {
    && head == At(ids, 0)
    && (forall i, j | 0 <= i < j < |ids| :: ids[i] != ids[j])
    && (forall i {:trigger NextOf(ids, i)} | 0 <= i < |ids| :: ids[i].next == NextOf(ids, i))
  }

  predicate Members(q: seq<Ev<Event>>, repr: set<Event>) {
    forall i | 0 <= i < |q| :: q[i].id in repr
  }

  predicate Mirrors(v: Ev<Event>)
    reads v.id`timestamp, v.id`delay
  {
    v.id.timestamp == ToStamp(v.due) && v.id.delay == v.period && v.id.periodic == v.repeat
  }

  /** Each event holds the low half of its due time, its period and its kind. */
  ghost predicate Mirrored(q: seq<Ev<Event>>, repr: set<Event>)
    requires Members(q, repr)
    reads repr`timestamp, repr`delay
  {
    forall i | 0 <= i < |q| :: Mirrors(q[i])
  }

  lemma Inserted(q: seq<Ev<Event>>, e: Ev<Event>, k: nat)
    requires Sorted(q) && Unique(q) && !Queued(q, e.id) && k <= |q|
    requires (forall i | 0 <= i < k :: q[i].due <= e.due) && (k < |q| ==> e.due < q[k].due)
    ensures Sorted(Insert(q, e)) && Unique(Insert(q, e))
    ensures Ids(Insert(q, e)) == Ids(q)[..k] + [e.id] + Ids(q)[k..]
  {
    InsertSorted(q, e);
    InsertUnique(q, e);
    InsertedIds(q, e, k);
  }

  lemma InsertedIds(q: seq<Ev<Event>>, e: Ev<Event>, k: nat)
    requires k <= |q| && (forall i | 0 <= i < k :: q[i].due <= e.due) && (k < |q| ==> e.due < q[k].due)
    ensures Ids(Insert(q, e)) == Ids(q)[..k] + [e.id] + Ids(q)[k..]
  {
    InsertAt(q, e, k);
    IdsAround(q[..k], e, q[k..]);
    IdsCut(q, k);
  }

  lemma IdsCut(q: seq<Ev<Event>>, k: nat)
    requires k <= |q|
    ensures Ids(q[..k]) == Ids(q)[..k] && Ids(q[k..]) == Ids(q)[k..]
  {
  }

  lemma IdsAround(a: seq<Ev<Event>>, e: Ev<Event>, b: seq<Ev<Event>>)
    ensures Ids(a + [e] + b) == Ids(a) + [e.id] + Ids(b)
  {
    IdsConcat(a + [e], b);
    IdsConcat(a, [e]);
    assert [e][1..] == [];
  }

  lemma {:induction false} IdsConcat(a: seq<Ev<Event>>, b: seq<Ev<Event>>)
    ensures Ids(a + b) == Ids(a) + Ids(b)
  {
    if a == [] {
      assert a + b == b;
    } else {
      assert (a + b)[1..] == a[1..] + b;
      IdsConcat(a[1..], b);
    }
  }

  lemma InsertedMembers(q: seq<Ev<Event>>, e: Ev<Event>, repr: set<Event>)
    requires Members(q, repr) && e.id in repr
    ensures Members(Insert(q, e), repr)
  {
    forall i | 0 <= i < |Insert(q, e)| ensures Insert(q, e)[i].id in repr {
      InsertMembers(q, e, Insert(q, e)[i]);
    }
  }

  lemma InsertedMirrors(q: seq<Ev<Event>>, e: Ev<Event>, repr: set<Event>)
    requires Members(q, repr) && Mirrored(q, repr) && Mirrors(e) && Members(Insert(q, e), repr)
    ensures Mirrored(Insert(q, e), repr)
  {
    forall i | 0 <= i < |Insert(q, e)| ensures Mirrors(Insert(q, e)[i]) {
      InsertMembers(q, e, Insert(q, e)[i]);
    }
  }

  lemma Removed(q: seq<Ev<Event>>, obj: Event, k: nat, repr: set<Event>)
    requires Sorted(q) && Unique(q) && Members(q, repr) && k < |q| && q[k].id == obj
    ensures Sorted(Without(q, obj)) && Unique(Without(q, obj)) && Members(Without(q, obj), repr)
    ensures Ids(Without(q, obj)) == Ids(q)[..k] + Ids(q)[k + 1..]
  {
    var j := WithoutSplits(q, obj);
    assert j == k;
    WithoutSorted(q, obj);
    WithoutUnique(q, obj);
    RemovedIds(q, obj, k);
    forall i | 0 <= i < |Without(q, obj)| ensures Without(q, obj)[i].id in repr {
      WithoutMembers(q, obj, Without(q, obj)[i]);
    }
  }

  lemma RemovedIds(q: seq<Ev<Event>>, obj: Event, k: nat)
    requires k < |q| && Without(q, obj) == q[..k] + q[k + 1..]
    ensures Ids(Without(q, obj)) == Ids(q)[..k] + Ids(q)[k + 1..]
  {
    IdsConcat(q[..k], q[k + 1..]);
    IdsCut(q, k);
    IdsCut(q, k + 1);
  }

  lemma RemovedMirrors(q: seq<Ev<Event>>, obj: Event, repr: set<Event>)
    requires Members(q, repr) && Mirrored(q, repr) && Members(Without(q, obj), repr)
    ensures Mirrored(Without(q, obj), repr)
  {
    forall i | 0 <= i < |Without(q, obj)| ensures Mirrors(Without(q, obj)[i]) {
      WithoutMembers(q, obj, Without(q, obj)[i]);
    }
  }

  /** Actions on events of this queue; whether a set event is periodic depends on its class. */
  predicate UsableOne(a: Action<Event>, repr: set<Event>) {
    a.id in repr && (a.Setup? ==> a.repeat == a.id.periodic)
  }

  predicate Usable(acts: seq<Timed<Event>>, repr: set<Event>) {
    forall j | 0 <= j < |acts| :: UsableOne(acts[j].a, repr)
  }

  ghost predicate AllUsable(c: Course<Event>, repr: set<Event>) {
    forall i: nat :: Usable(c.acts(i), repr)
  }

  class Queue {
    var head: Event?
    var compare: Compare
    /** Whether an event handler is installed. */
    var handled: bool
    ghost var evs: seq<Ev<Event>>
    /** The events this queue may link: every one ever inserted or adopted. */
    ghost var repr: set<Event>

    ghost predicate Valid()
      reads this`head, this`evs, this`repr, repr
    {
      && Members(evs, repr) && Mirrored(evs, repr)
      && Sorted(evs) && Unique(evs)
      && Chain(head, Ids(evs))
    }

    /** Between interrupts the timer is armed for the head of the queue, or off when there is none. */
    ghost predicate AtRest()
      reads this, if head == null then {} else {head}
    {
      compare == if head == null then Disabled else Armed(head.timestamp)
    }

    constructor ()
      ensures Valid() && AtRest() && evs == [] && repr == {} && !handled
    {
      head, compare, handled, evs, repr := null, Disabled, false, [], {};
    }

    /** Every constructor of a TimerEvent does this. */
    method SetHandler()
      modifies this`handled
      ensures handled
    {
      handled := true;
    }

    // ---- ticker_insert_event ----

    /** The first queued event the new one should come before, and the one ahead of it. */
    method FindSlot(timestamp: Stamp, ghost due: int) returns (prev: Event?, p: Event?, ghost k: nat)
      requires Valid() && timestamp == ToStamp(due)
      requires forall i | 0 <= i < |evs| :: -TWO31 <= due - evs[i].due < TWO31
      ensures k <= |evs| && p == At(Ids(evs), k) && prev == if k == 0 then null else evs[k - 1].id
      ensures forall i | 0 <= i < k :: evs[i].due <= due
      ensures k < |evs| ==> due < evs[k].due
    {
      prev, p, k := null, head, 0;
      while p != null
        invariant k <= |evs| && p == At(Ids(evs), k) && prev == if k == 0 then null else evs[k - 1].id
        invariant forall i | 0 <= i < k :: evs[i].due <= due
        decreases |evs| - k
      {
        WindowOrder(due, evs[k].due);
        assert Mirrors(evs[k]);
        if SignedDiff(timestamp, p.timestamp) < 0 {
          break;
        }
        assert p.next == NextOf(Ids(evs), k);
        prev, p, k := p, p.next, k + 1;
      }
    }

    /** Links obj between prev and p; a new head re-arms the timer. */
    method Splice(obj: Event, prev: Event?, p: Event?, ghost ids: seq<Event>, ghost k: nat)
      requires Chain(head, ids) && obj !in ids && k <= |ids|
      requires prev == (if k == 0 then null else ids[k - 1]) && p == At(ids, k)
      requires obj in repr && (forall i | 0 <= i < |ids| :: ids[i] in repr)
      requires Members(evs, repr) && Mirrored(evs, repr)
      modifies this`head, this`compare, repr`next
      ensures Mirrored(evs, repr)
      ensures Chain(head, ids[..k] + [obj] + ids[k..])
      ensures if k == 0 then AtRest() else compare == old(compare) && head == old(head)
    {
      if prev == null {
        head, compare := obj, Armed(obj.timestamp);
      } else {
        prev.next := obj;
      }
      obj.next := p;
      ghost var r := ids[..k] + [obj] + ids[k..];
      forall i {:trigger NextOf(r, i)} | 0 <= i < |r|
        ensures r[i].next == NextOf(r, i)
      {
        if i < k {
          assert old(ids[i].next) == NextOf(ids, i);
        } else if i > k {
          assert r[i] == ids[i - 1];
          assert old(ids[i - 1].next) == NextOf(ids, i - 1);
        }
      }
    }

    /** Events can be known to the queue before they are first set, so that callbacks can set them. */
    ghost method Adopt(obj: Event)
      requires Valid()
      modifies this`repr
      ensures Valid() && evs == old(evs) && repr == old(repr) + {obj}
      ensures old(AtRest()) ==> AtRest()
    {
      repr := repr + {obj};
    }

    /** An event that is not queued can be stamped without anyone noticing. */
    method Enlist(obj: Event, timestamp: Stamp)
      requires Valid() && !Queued(evs, obj)
      modifies this`repr, obj`timestamp
      ensures Valid() && obj.timestamp == timestamp && repr == old(repr) + {obj}
      ensures old(AtRest()) ==> AtRest()
    {
      obj.timestamp := timestamp;
      repr := repr + {obj};
    }

    method InsertEvent(obj: Event, timestamp: Stamp, ghost due: int)
      requires Valid() && !Queued(evs, obj) && timestamp == ToStamp(due)
      requires forall i | 0 <= i < |evs| :: -TWO31 <= due - evs[i].due < TWO31
      modifies this`head, this`compare, this`evs, this`repr, obj`timestamp, obj`next, repr`next
      ensures Valid() && evs == Insert(old(evs), Ev(obj, due, obj.periodic, obj.delay as nat))
      ensures repr == old(repr) + {obj}
      ensures old(AtRest()) ==> AtRest()
    {
      var prev, p;
      ghost var k;
      Enlist(obj, timestamp);
      prev, p, k := FindSlot(timestamp, due);
      Place(obj, Ev(obj, due, obj.periodic, obj.delay as nat), prev, p, k);
    }

    /** The second half of the insertion: the stamped event e goes into slot k, between prev and p. */
    method Place(obj: Event, ghost e: Ev<Event>, prev: Event?, p: Event?, ghost k: nat)
      requires Sorted(evs) && Unique(evs) && Chain(head, Ids(evs))
      requires Members(evs, repr) && Mirrored(evs, repr)
      requires e.id == obj && Mirrors(e) && !Queued(evs, obj) && obj in repr
      requires k <= |evs| && prev == (if k == 0 then null else evs[k - 1].id) && p == At(Ids(evs), k)
      requires (forall i | 0 <= i < k :: evs[i].due <= e.due) && (k < |evs| ==> e.due < evs[k].due)
      modifies this`head, this`compare, this`evs, repr`next
      ensures Valid() && evs == Insert(old(evs), e)
      ensures old(AtRest()) ==> AtRest()
    {
      Inserted(evs, e, k);
      InsertedMembers(evs, e, repr);
      Splice(obj, prev, p, Ids(evs), k);
      InsertedMirrors(evs, e, repr);
      evs := Insert(evs, e);
    }

    // ---- ticker_remove_event ----

    /** The queued event in front of obj, if obj is queued behind another one. */
    method FindBefore(obj: Event) returns (p: Event?, ghost j: nat)
      requires Valid() && head != obj
      ensures j <= |evs| && p == At(Ids(evs), j)
      ensures if Queued(evs, obj) then j + 1 < |evs| && evs[j + 1].id == obj else p == null
    {
      p, j := head, 0;
      while p != null
        invariant j <= |evs| && p == At(Ids(evs), j)
        invariant forall i | 0 <= i <= j && i < |evs| :: evs[i].id != obj
        decreases |evs| - j
      {
        assert p.next == NextOf(Ids(evs), j);
        if p.next == obj {
          break;
        }
        p, j := p.next, j + 1;
      }
    }

    /** Drops the k-th event, which follows p, or is the head when p is null; a lost head re-arms the timer. */
    method Unlink(p: Event?, obj: Event, ghost ids: seq<Event>, ghost k: nat)
      requires Chain(head, ids) && k < |ids| && ids[k] == obj
      requires p == if k == 0 then null else ids[k - 1]
      requires forall i | 0 <= i < |ids| :: ids[i] in repr
      requires Members(evs, repr) && Mirrored(evs, repr)
      modifies this`head, this`compare, repr`next
      ensures Mirrored(evs, repr)
      ensures Chain(head, ids[..k] + ids[k + 1..])
      ensures k == 0 ==> AtRest()
      ensures k != 0 ==> head == old(head) && compare == old(compare)
    {
      assert obj.next == NextOf(ids, k);
      if p == null {
        head := obj.next;
        compare := if head == null then Disabled else Armed(head.timestamp);
      } else {
        p.next := obj.next;
      }
      ghost var r := ids[..k] + ids[k + 1..];
      forall i {:trigger NextOf(r, i)} | 0 <= i < |r|
        ensures r[i].next == NextOf(r, i)
      {
        if i < k {
          assert old(ids[i].next) == NextOf(ids, i);
        } else {
          assert r[i] == ids[i + 1];
          assert old(ids[i + 1].next) == NextOf(ids, i + 1);
        }
      }
    }

    /** The second half of the removal: obj, the k-th event, leaves the list; p is the event ahead of it. */
    method Drop(obj: Event, p: Event?, ghost k: nat)
      requires Valid() && k < |evs| && evs[k].id == obj && p == if k == 0 then null else evs[k - 1].id
      modifies this`head, this`compare, this`evs, repr`next
      ensures Valid() && evs == Without(old(evs), obj)
      ensures old(AtRest()) ==> AtRest()
    {
      Removed(evs, obj, k, repr);
      Unlink(p, obj, Ids(evs), k);
      RemovedMirrors(evs, obj, repr);
      evs := Without(evs, obj);
    }

    method RemoveEvent(obj: Event)
      requires Valid()
      modifies this`head, this`compare, this`evs, this`repr, repr`next
      ensures Valid() && evs == Without(old(evs), obj) && repr == old(repr)
      ensures old(AtRest()) ==> AtRest()
    {
      if head == obj {
        Drop(obj, null, 0);
      } else {
        var p;
        ghost var j;
        p, j := FindBefore(obj);
        if p != null {
          Drop(obj, p, j + 1);
        } else {
          WithoutAbsent(evs, obj);
        }
      }
    }

    // ---- ticker_irq_handler, with Ticker::handler and Timeout::handler ----

    method PopHead() returns (p: Event)
      requires Valid() && evs != []
      modifies this`head, this`evs
      ensures Valid() && p == old(evs)[0].id && evs == old(evs)[1..]
    {
      p := head;
      assert p.next == NextOf(Ids(evs), 0);
      head := p.next;
      ghost var ids := Ids(evs);
      forall i {:trigger NextOf(ids[1..], i)} | 0 <= i < |ids[1..]|
        ensures ids[1..][i].next == NextOf(ids[1..], i)
      {
        assert ids[i + 1].next == NextOf(ids, i + 1);
      }
      assert Ids(evs[1..]) == ids[1..];
      evs := evs[1..];
    }

    /** Ticker::handler queues the event again one period later, Timeout::handler does not. */
    method RunHandler(p: Event, ghost e: Ev<Event>, ghost now: int, ghost late: nat, ghost ahead: nat)
      requires Valid() && p == e.id && Mirrors(e) && p in repr && !Queued(evs, p) && late + ahead < TWO31
      requires Within([e] + evs, now, late, ahead) && e.due <= now
      modifies this`head, this`compare, this`evs, this`repr, repr`timestamp, repr`next
      ensures Valid() && repr == old(repr)
      ensures evs == if e.repeat then Insert(old(evs), Later(e)) else old(evs)
    {
      if p.periodic {
        StampAdd(e.due, p.delay);
        ghost var l := Later(e);
        forall i | 0 <= i < |evs| ensures -TWO31 <= l.due - evs[i].due < TWO31 {
          assert ([e] + evs)[0] == e && ([e] + evs)[i + 1] == evs[i];
        }
        assert ([e] + evs)[0] == e;
        InsertEvent(p, (p.timestamp + p.delay) % TWO32, l.due);
      }
    }

    method FireHead(ghost now: int, ghost late: nat, ghost ahead: nat)
      requires Valid() && Due(evs, now) && Within(evs, now, late, ahead) && late + ahead < TWO31
      modifies this`head, this`compare, this`evs, this`repr, repr`timestamp, repr`next
      ensures Valid() && repr == old(repr) && evs == Round(old(evs))
    {
      ghost var q := evs;
      assert Mirrors(evs[0]);
      var p := PopHead();
      assert [q[0]] + evs == q;
      RunHandler(p, q[0], now, late, ahead);
    }

    method HeadIsDue(clock: Stamp, ghost now: int) returns (due: bool)
      requires Valid() && head != null && clock == ToStamp(now) && -TWO31 <= evs[0].due - now < TWO31
      ensures due == Due(evs, now)
    {
      WindowOrder(evs[0].due, now);
      assert Mirrors(evs[0]);
      due := SignedDiff(head.timestamp, clock) <= 0;
    }

    // ---- Ticker::setup, Ticker::detach ----

    method Detach(e: Event)
      requires Valid()
      modifies this`head, this`compare, this`evs, this`repr, repr`next
      ensures Valid() && repr == old(repr)
      ensures evs == Without(old(evs), e) && !Queued(evs, e)
      ensures old(AtRest()) ==> AtRest()
    {
      WithoutUnique(evs, e);
      RemoveEvent(e);
    }

    /** An event that is not queued can change its period without anyone noticing. */
    method SetDelay(e: Event, t: Stamp)
      requires Valid() && !Queued(evs, e)
      modifies e`delay
      ensures Valid() && e.delay == t
      ensures old(AtRest()) ==> AtRest()
    {
      e.delay := t;
    }

    /** The second half of setup, for an event that is not queued. */
    method Rearm(e: Event, t: Stamp, timestamp: Stamp, ghost due: int)
      requires Valid() && !Queued(evs, e) && timestamp == ToStamp(due) && InWindow(evs, due)
      modifies this`head, this`compare, this`evs, this`repr, e`timestamp, e`next, e`delay, repr`next
      ensures Valid() && repr == old(repr) + {e}
      ensures evs == Insert(old(evs), Ev(e, due, e.periodic, t as nat))
      ensures old(AtRest()) ==> AtRest()
    {
      SetDelay(e, t);
      InsertEvent(e, timestamp, due);
    }

    method Setup(e: Event, t: Stamp, clock: Stamp, ghost now: int, ghost late: nat, ghost ahead: nat)
      requires Valid() && clock == ToStamp(now)
      requires Within(evs, now, late, ahead) && t <= ahead && late + ahead < TWO31
      modifies this`head, this`compare, this`evs, this`repr, e`timestamp, e`next, e`delay, repr`next
      ensures Valid() && repr == old(repr) + {e}
      ensures evs == Insert(Without(old(evs), e), Ev(e, now + t, e.periodic, t as nat))
      ensures old(AtRest()) ==> AtRest()
    {
      SetupTime(evs, e, t, clock, now, late, ahead);
      Detach(e);
      Rearm(e, t, (t + clock) % TWO32, now + t);
    }

    // ---- The loop of the interrupt ----

    /** One call of the application; `now` is what the timer shows then. */
    method Perform(a: Action<Event>, now: int, ghost late: nat, ghost ahead: nat)
      requires Valid() && UsableOne(a, repr) && (a.Setup? ==> a.t <= ahead)
      requires Within(evs, now, late, ahead) && late + ahead < TWO31
      modifies this`head, this`compare, this`evs, this`repr, repr`timestamp, repr`next, repr`delay
      ensures Valid() && repr == old(repr) && evs == Act(old(evs), now, a)
      ensures old(AtRest()) ==> AtRest()
    {
      match a
      case Setup(id, t, _) => {
        Setup(id, t, ToStamp(now), now, late, ahead);
        assert old(repr) + {id} == old(repr);
      }
      case Detach(id) => Detach(id);
    }

    /** The application's callback of one firing; events are due no earlier than lo. */
    method Callback(acts: seq<Timed<Event>>, ghost lo: int, ghost from: int, ghost to: int,
                    ghost late: nat, ghost ahead: nat)
      requires Valid() && Usable(acts, repr) && InReach(acts, ahead) && Between(acts, from, to)
      requires Spans(evs, lo, from, ahead) && to - late <= lo <= from <= to && late + ahead < TWO31
      modifies this`head, this`compare, this`evs, this`repr, repr`timestamp, repr`next, repr`delay
      ensures Valid() && repr == old(repr) && evs == Acts(old(evs), acts)
      decreases |acts|
    {
      if acts != [] {
        var x := acts[0];
        CallWithin(evs, lo, from, to, x, late, ahead);
        Perform(x.a, x.now, late, ahead);
        Callback(acts[1..], lo, x.now, to, late, ahead);
      }
    }

    /** One round: the head is due, leaves the queue, queues itself again, and its callback runs. */
    method DrainOne(c: Course<Event>, i: nat, ghost late: nat, ghost ahead: nat)
      requires Valid() && Allowed(c, late, ahead) && Usable(c.acts(i), repr)
      requires Due(evs, c.clock(i)) && Spans(evs, c.end - late, c.clock(i), ahead) && late + ahead < TWO31
      modifies this`head, this`compare, this`evs, this`repr, repr`timestamp, repr`next, repr`delay
      ensures Valid() && repr == old(repr) && evs == RoundWith(old(evs), c.acts(i))
    {
      RoundWithin(evs, late, ahead, c, i);
      RoundSpans(evs, c.end - late, c.clock(i), ahead);
      FireHead(c.clock(i), late, ahead);
      RoundTimes(c, i);
      Callback(c.acts(i), c.end - late, c.clock(i), c.clock(i + 1), late, ahead);
    }

    /** The test of round i. */
    method RoundIsDue(c: Course<Event>, i: nat, ghost late: nat, ghost ahead: nat) returns (due: bool)
      requires Valid() && head != null && late + ahead < TWO31
      requires Allowed(c, late, ahead) && Spans(evs, c.end - late, c.clock(i), ahead)
      ensures due == Due(evs, c.clock(i))
    {
      RoundWithin(evs, late, ahead, c, i);
      due := HeadIsDue(ToStamp(c.clock(i)), c.clock(i));
    }

    /** The same, as a step of the drain that is to come to `goal`. */
    method DrainOn(c: Course<Event>, i: nat, ghost late: nat, ghost ahead: nat,
                   ghost log: seq<(Event, int)>, ghost goal: Drained<Event>)
      returns (ghost longer: seq<(Event, int)>)
      requires Valid() && AllUsable(c, repr) && i == |log| && Draining(evs, late, ahead, c, log, goal)
      requires Due(evs, c.clock(i)) && late + ahead < TWO31
      modifies this`head, this`compare, this`evs, this`repr, repr`timestamp, repr`next, repr`delay
      ensures Valid() && repr == old(repr) && |longer| == i + 1 && Draining(evs, late, ahead, c, longer, goal)
      ensures i >= c.quiet ==> Outstanding(evs, c.end) < old(Outstanding(evs, c.end))
    {
      RoundFacts(evs, late, ahead, c, log, goal);
      longer := log + [(evs[0].id, evs[0].due)];
      DrainOne(c, i, late, ahead);
    }

    /**
     The loop of ticker_irq_handler, which reads the timer in every round: it ends with an empty queue or a head in
     the future.
    */
    method DrainAll(c: Course<Event>, ghost late: nat, ghost ahead: nat)
      returns (fired: nat, ghost log: seq<(Event, int)>)
      requires Valid() && Allowed(c, late, ahead) && AllUsable(c, repr) && Positive(evs, c.end)
      requires Spans(evs, c.end - late, c.clock(0), ahead) && late + ahead < TWO31
      modifies this`head, this`compare, this`evs, this`repr, repr`timestamp, repr`next, repr`delay
      ensures Valid() && repr == old(repr) && Drained(log, evs) == Drain(old(evs), c, 0) && fired == |log|
    {
      ghost var goal := Drain(evs, c, 0);
      DrainBegins(evs, late, ahead, c);
      fired, log := 0, [];
      while head != null
        invariant Valid() && repr == old(repr) && fired == |log| && Draining(evs, late, ahead, c, log, goal)
        decreases Unsettled(c, fired), Outstanding(evs, c.end)
      {
        var due := RoundIsDue(c, fired, late, ahead);
        if !due {
          break;
        }
        log := DrainOn(c, fired, late, ahead, log, goal);
        fired := fired + 1;
      }
      DrainEnds(evs, late, ahead, c, log, goal);
    }

    /** The same loop while no handler is installed. */
    method DropDue(c: Course<Event>, ghost late: nat, ghost ahead: nat)
      requires Valid() && Allowed(c, late, ahead) && Spans(evs, c.end - late, c.clock(0), ahead) && late + ahead < TWO31
      modifies this`head, this`evs
      ensures Valid() && evs == Unheard(old(evs), c, 0)
    {
      ghost var goal := Unheard(evs, c, 0);
      var i := 0;
      while head != null
        invariant Valid() && Unheard(evs, c, i) == goal && Spans(evs, c.end - late, c.clock(i), ahead)
        decreases |evs|
      {
        var due := RoundIsDue(c, i, late, ahead);
        if !due {
          break;
        }
        RoundTimes(c, i);
        var p := PopHead();
        i := i + 1;
      }
    }

    /**
     With a handler the interrupt drains the queue as the specification does, calls included; without one it drops
     what is due. Either way it re-arms the timer.
    */
    method IrqHandler(c: Course<Event>, ghost late: nat, ghost ahead: nat)
      returns (fired: nat, ghost log: seq<(Event, int)>)
      requires Valid() && Allowed(c, late, ahead) && AllUsable(c, repr) && (handled ==> Positive(evs, c.end))
      requires Spans(evs, c.end - late, c.clock(0), ahead) && late + ahead < TWO31
      modifies this`head, this`compare, this`evs, this`repr, repr`timestamp, repr`next, repr`delay
      ensures Valid() && AtRest() && repr == old(repr) && fired == |log|
      ensures old(handled) ==> Drained(log, evs) == Drain(old(evs), c, 0)
      ensures !old(handled) ==> log == [] && evs == Unheard(old(evs), c, 0)
    {
      fired, log := 0, [];
      if handled {
        fired, log := DrainAll(c, late, ahead);
      } else {
        DropDue(c, late, ahead);
      }
      compare := if head == null then Disabled else Armed(head.timestamp);
    }
  }
}
