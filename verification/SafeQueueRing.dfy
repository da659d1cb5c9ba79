/**
 The queue of apps/usbaudio/safe_queue.c as one thread runs it: the struct, its item buffer, and the two
 retry loops, in which an exclusive store may fail any number of times before it succeeds.
*/
module SafeQueueRing {
  import opened Modular
  import opened Rings
  import opened SafeQueue
  import opened SafeQueueAlone

  /** What a put does to a ring of slots. */
  lemma AddLast(slots: seq<Item>, f: nat, n: nat, item: Item)
    requires n < |slots| <= 255
    ensures Advance((f + n) % |slots|, |slots|) == (f + (n + 1)) % |slots|
    ensures From(slots[(f + n) % |slots| := item], f, n + 1) == From(slots, f, n) + [item]
  {
    StoreAppends(slots, f, n, item);
    ModSucc(f + n, |slots|);
  }

  /** What a get does to a ring of slots. */
  lemma TakeHead(slots: seq<Item>, f: nat, n: nat)
    requires 0 < n <= |slots| <= 255 && f < |slots|
    ensures Advance(f, |slots|) < |slots| && (Advance(f, |slots|) + (n - 1)) % |slots| == (f + n) % |slots|
    ensures [slots[f]] + From(slots, Advance(f, |slots|), n - 1) == From(slots, f, n)
  {
    NextSlot(f, n, |slots|);
    HeadTaken(slots, f, n);
  }

  class Ring {
    var first: nat
    var last: nat
    var count: nat
    const size: nat
    const items: array<Item>

    ghost predicate Valid()
      reads this, items
    {
      && size <= 255 && size <= items.Length && count <= size
      && if size == 0 then first == last == 0 else first < size && last == (first + count) % size
    }

    ghost function Contents(): seq<Item>
      requires Valid()
      reads this, items
    {
      if size == 0 then [] else From(items[..size], first, count)
    }

    /** The shared variables of the threads' state. */
    ghost predicate Shows(s: State)
      requires Valid()
      reads this, items
    {
      size == s.size && items[..size] == s.items && count == s.count && last == s.last && first == s.first
    }

    /** safe_queue_init: the size field keeps the low byte of the size, so a ring of 256 slots refuses every put. */
    constructor (items: array<Item>)
      ensures Valid() && Contents() == [] && this.items == items && size == items.Length % 256
    {
      first, last, count := 0, 0, 0;
      size, this.items := items.Length % 256, items;
    }

    /** The first loop of safe_queue_put: a place in the count, unless the queue is full. */
    method RaiseCount(countFails: nat) returns (full: bool)
      requires count <= size <= 255
      modifies `count
      ensures full == (old(count) == size) && count == if full then old(count) else old(count) + 1
    {
      var cnt := count;
      var fails := countFails;
      while true
        modifies `count
        invariant count == old(count)
        decreases fails
      {
        cnt := count;
        if cnt >= size {
          return true;
        }
        if fails == 0 {
          count := Inc8(cnt);
          break;
        }
        fails := fails - 1;
      }
      full := false;
    }

    /** The second loop: the index of the slot to store to. */
    method AdvanceLast(lastFails: nat) returns (idx: nat)
      requires last < size <= 255
      modifies `last
      ensures idx == old(last) && last == Advance(old(last), size)
    {
      idx := last;
      var cnt, fails := 0, lastFails;
      while true
        modifies `last
        invariant last == old(last)
        decreases fails
      {
        idx := last;
        cnt := Inc8(idx);
        if cnt >= size {
          cnt := 0;
        }
        if fails == 0 {
          last := cnt;
          break;
        }
        fails := fails - 1;
      }
    }

    /** safe_queue_put; the two numbers say how often each exclusive store fails. */
    method Put(item: Item, countFails: nat, lastFails: nat) returns (ret: int)
      requires Valid()
      modifies this`count, this`last, items
      ensures Valid()
      ensures ret == if |old(Contents())| == size then 1 else 0
      ensures Contents() == if ret == 0 then old(Contents()) + [item] else old(Contents())
      ensures if ret == 0 then
                && count == old(count) + 1 && old(last) < size && last == Advance(old(last), size)
                && items[..size] == old(items[..size])[old(last) := item]
              else count == old(count) && last == old(last) && items[..size] == old(items[..size])
    {
      var full := RaiseCount(countFails);
      if full {
        return 1;
      }
      var idx := AdvanceLast(lastFails);
      ghost var slots := items[..size];
      AddLast(slots, first, old(count), item);
      items[idx] := item;
      assert items[..size] == slots[idx := item];
      ret := 0;
    }

    /** The first loop of safe_queue_get: a claim on an item, unless the queue is empty. */
    method LowerCount(countFails: nat) returns (empty: bool)
      requires count <= 255
      modifies `count
      ensures empty == (old(count) == 0) && count == if empty then 0 else old(count) - 1
    {
      var cnt := count;
      var fails := countFails;
      while true
        modifies `count
        invariant count == old(count)
        decreases fails
      {
        cnt := count;
        if cnt == 0 {
          return true;
        }
        if fails == 0 {
          count := Dec8(cnt);
          break;
        }
        fails := fails - 1;
      }
      DecExact(cnt);
      empty := false;
    }

    /** The second loop: the index of the slot to read. */
    method AdvanceFirst(firstFails: nat) returns (idx: nat)
      requires first < size <= 255
      modifies `first
      ensures idx == old(first) && first == Advance(old(first), size)
    {
      idx := first;
      var cnt, fails := 0, firstFails;
      while true
        modifies `first
        invariant first == old(first)
        decreases fails
      {
        idx := first;
        cnt := Inc8(idx);
        if cnt >= size {
          cnt := 0;
        }
        if fails == 0 {
          first := cnt;
          break;
        }
        fails := fails - 1;
      }
    }

    /** safe_queue_get */
    method Get(countFails: nat, firstFails: nat) returns (ret: int, item: Item)
      requires Valid()
      modifies this`count, this`first
      ensures Valid()
      ensures ret == if old(Contents()) == [] then 1 else 0
      ensures if ret == 0 then [item] + Contents() == old(Contents()) else Contents() == old(Contents())
      ensures if ret == 0 then
                && count == old(count) - 1 && old(first) < size && first == Advance(old(first), size)
                && item == items[old(first)]
              else count == old(count) && first == old(first)
    {
      var empty := LowerCount(countFails);
      if empty {
        return 1, 0;
      }
      var idx := AdvanceFirst(firstFails);
      TakeHead(items[..size], idx, old(count));
      return 0, items[idx];
    }

    /** On the shared variables of any reachable state a put is what an idle thread's call does to them alone. */
    method PutAsThread(item: Item, countFails: nat, lastFails: nat, ghost s: State, ghost t: nat,
                       ghost fails: seq<bool>)
      returns (ret: int)
      requires Valid() && Shows(s) && Recorded(s) && t < |s.threads| && s.threads[t].Idle?
      requires |fails| >= 5 + 2 * Failures(fails)
      modifies this`count, this`last, items
      ensures Valid() && Shows(Run(s, [(t, CallPut(item))] + Gos(t, fails)))
      ensures ret == if s.count == s.size then 1 else 0
    {
      PutAlone(s, t, item, fails);
      ret := Put(item, countFails, lastFails);
    }

    /** And so is a get, with the answer that thread's ticket gets. */
    method GetAsThread(countFails: nat, firstFails: nat, ghost s: State, ghost t: nat, ghost fails: seq<bool>)
      returns (ret: int, item: Item)
      requires Valid() && Shows(s) && Recorded(s) && t < |s.threads| && s.threads[t].Idle?
      requires |fails| >= 5 + 2 * Failures(fails)
      modifies this`count, this`first
      ensures Valid() && Shows(Run(s, [(t, CallGet)] + Gos(t, fails)))
      ensures ret == if s.count == 0 then 1 else 0
      ensures ret == 0 ==> Run(s, [(t, CallGet)] + Gos(t, fails)).returned == s.returned[s.taken := item]
    {
      GetAlone(s, t, fails);
      ret, item := Get(countFails, firstFails);
    }
  }
}
