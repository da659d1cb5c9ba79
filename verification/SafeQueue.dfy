/**
 The lock-free ring of apps/usbaudio/safe_queue.c as the atomic steps of arbitrarily many threads. An
 exclusive store (STREXB) succeeds only if nobody stored to the location since the exclusive load, and may
 fail for no reason at all.
*/
module SafeQueue {
  import opened Modular
  import opened Rings

  type Item = i: int | 0 <= i < 0x1_0000_0000

  /** Where a thread stands; the fields are its local variables, and `ticket` counts index advances. */
  datatype Pc =
    | Idle
    | PutLoad(item: Item)                                // about to LDREXB count
    | PutReserve(item: Item, cnt: nat, ver: nat)         // about to STREXB count
    | PutLoadLast(item: Item)                            // about to LDREXB last
    | PutAdvance(item: Item, idx: nat, ver: nat)         // about to STREXB last
    | PutWrite(item: Item, idx: nat, ticket: nat)        // about to store the item
    | GetLoad
    | GetReserve(cnt: nat, ver: nat)
    | GetLoadFirst
    | GetAdvance(idx: nat, ver: nat)
    | GetRead(idx: nat, ticket: nat)

  /** What a thread does next: start a call when idle, else its next instruction. */
  datatype Act = CallPut(item: Item) | CallGet | Go(strexFails: bool)

  /**
   The queue, the threads, and the record of the past: the items in the order their slots were handed out, the
   number of slots handed to readers, what each completed get returned, and, to tell equal items apart, which
   ticket was last stored in each slot and which ticket's item each get found (-1 for none).
  */
  datatype State = State(
    size: nat, items: seq<Item>, count: nat, last: nat, first: nat,
    countVer: nat, lastVer: nat, firstVer: nat,
    threads: seq<Pc>,
    accepted: seq<Item>, taken: nat, returned: map<nat, Item>,
    stored: seq<int>, sources: map<nat, int>)

  function Inc8(x: nat): nat { (x + 1) % 256 }

  function Dec8(x: nat): nat { (x + 255) % 256 }

  /** The index after idx, as the code computes it. */
  function Advance(idx: nat, size: nat): nat {
    if Inc8(idx) >= size then 0 else Inc8(idx)
  }

  function Store(items: seq<Item>, idx: nat, item: Item): seq<Item> {
    if idx < |items| then items[idx := item] else items
  }

  function Load(items: seq<Item>, idx: nat): Item {
    if idx < |items| then items[idx] else 0
  }

  function Mark(stored: seq<int>, idx: nat, ticket: nat): seq<int> {
    if idx < |stored| then stored[idx := ticket] else stored
  }

  function Source(stored: seq<int>, idx: nat): int {
    if idx < |stored| then stored[idx] else -1
  }

  function Goto(s: State, t: nat, pc: Pc): State
    requires t < |s.threads|
  {
    s.(threads := s.threads[t := pc])
  }

  function PutStep(s: State, t: nat, fails: bool): State
    requires t < |s.threads|
  {
    match s.threads[t]
    case PutLoad(item) =>
      if s.count >= s.size then Goto(s, t, Idle) else Goto(s, t, PutReserve(item, s.count, s.countVer))
    case PutReserve(item, cnt, ver) =>
      if fails || ver != s.countVer then Goto(s, t, PutLoad(item))
      else Goto(s.(count := Inc8(cnt), countVer := ver + 1), t, PutLoadLast(item))
    case PutLoadLast(item) => Goto(s, t, PutAdvance(item, s.last, s.lastVer))
    case PutAdvance(item, idx, ver) =>
      if fails || ver != s.lastVer then Goto(s, t, PutLoadLast(item))
      else Goto(s.(last := Advance(idx, s.size), lastVer := ver + 1, accepted := s.accepted + [item]),
                t, PutWrite(item, idx, |s.accepted|))
    case PutWrite(item, idx, ticket) =>
      Goto(s.(items := Store(s.items, idx, item), stored := Mark(s.stored, idx, ticket)), t, Idle)
    case _ => s
  }

  function GetStep(s: State, t: nat, fails: bool): State
    requires t < |s.threads|
  {
    match s.threads[t]
    case GetLoad => if s.count == 0 then Goto(s, t, Idle) else Goto(s, t, GetReserve(s.count, s.countVer))
    case GetReserve(cnt, ver) =>
      if fails || ver != s.countVer then Goto(s, t, GetLoad)
      else Goto(s.(count := Dec8(cnt), countVer := ver + 1), t, GetLoadFirst)
    case GetLoadFirst => Goto(s, t, GetAdvance(s.first, s.firstVer))
    case GetAdvance(idx, ver) =>
      if fails || ver != s.firstVer then Goto(s, t, GetLoadFirst)
      else Goto(s.(first := Advance(idx, s.size), firstVer := ver + 1, taken := s.taken + 1),
                t, GetRead(idx, s.taken))
    case GetRead(idx, ticket) =>
      Goto(s.(returned := s.returned[ticket := Load(s.items, idx)],
              sources := s.sources[ticket := Source(s.stored, idx)]), t, Idle)
    case _ => s
  }

  function Next(s: State, t: nat, a: Act): State {
    if t >= |s.threads| then s
    else match a
      case CallPut(item) => if s.threads[t].Idle? then Goto(s, t, PutLoad(item)) else s
      case CallGet => if s.threads[t].Idle? then Goto(s, t, GetLoad) else s
      case Go(fails) => GetOrPut(s, t, fails)
  }

  function GetOrPut(s: State, t: nat, fails: bool): State
    requires t < |s.threads|
  {
    if InPut(s.threads[t]) then PutStep(s, t, fails) else GetStep(s, t, fails)
  }

  predicate InPut(pc: Pc) {
    pc.PutLoad? || pc.PutReserve? || pc.PutLoadLast? || pc.PutAdvance? || pc.PutWrite?
  }

  function AllIdle(n: nat): (r: seq<Pc>)
    ensures |r| == n && forall t | 0 <= t < n :: r[t] == Idle
  {
    if n == 0 then [] else [Idle] + AllIdle(n - 1)
  }

  function Nowhere(n: nat): (r: seq<int>)
    ensures |r| == n && forall i | 0 <= i < n :: r[i] == -1
  {
    if n == 0 then [] else [-1] + Nowhere(n - 1)
  }

  /** safe_queue_init: the size field keeps the low byte of the size. */
  function Init(items: seq<Item>, size: nat, threads: nat): State {
    State(size % 256, items, 0, 0, 0, 0, 0, 0, AllIdle(threads), [], 0, map[], Nowhere(|items|), map[])
  }

  function Run(s: State, steps: seq<(nat, Act)>): State
    decreases |steps|
  {
    if steps == [] then s else Run(Next(s, steps[0].0, steps[0].1), steps[1..])
  }

  // ---- Counting ----

  /** A producer that has raised count but not yet moved last, and a consumer between its two. */
  function Reserving(pc: Pc): nat { if pc.PutLoadLast? || pc.PutAdvance? then 1 else 0 }

  function Claiming(pc: Pc): nat { if pc.GetLoadFirst? || pc.GetAdvance? then 1 else 0 }

  function Sum(threads: seq<Pc>, weight: Pc -> nat): nat {
    if threads == [] then 0 else weight(threads[0]) + Sum(threads[1..], weight)
  }

  lemma {:induction false} SumUpdate(threads: seq<Pc>, weight: Pc -> nat, t: nat, pc: Pc)
    requires t < |threads|
    ensures Sum(threads[t := pc], weight) + weight(threads[t]) == Sum(threads, weight) + weight(pc)
  {
    if t > 0 {
      assert threads[t := pc][1..] == threads[1..][t - 1 := pc];
      SumUpdate(threads[1..], weight, t - 1, pc);
    } else {
      assert threads[t := pc][1..] == threads[1..];
    }
  }

  lemma {:induction false} SumZero(threads: seq<Pc>, weight: Pc -> nat)
    ensures Sum(threads, weight) == 0 <==> forall t | 0 <= t < |threads| :: weight(threads[t]) == 0
  {
    if threads != [] {
      SumZero(threads[1..], weight);
      assert forall t | 1 <= t < |threads| :: threads[t] == threads[1..][t - 1];
    }
  }

  lemma ModSucc(x: nat, n: nat)
    requires 0 < n <= 255
    ensures (x + 1) % n == Advance(x % n, n)
  {
    ModNext(x, n);
  }

  /** What a thread's local variables still tell it about the shared ones. */
  predicate Knows(s: State, pc: Pc) {
    match pc
    case PutReserve(_, cnt, ver) => ver <= s.countVer && cnt < s.size && (ver == s.countVer ==> cnt == s.count)
    case GetReserve(cnt, ver) => ver <= s.countVer && 0 < cnt <= s.size && (ver == s.countVer ==> cnt == s.count)
    case PutAdvance(_, idx, ver) => ver <= s.lastVer && (ver == s.lastVer ==> idx == s.last)
    case GetAdvance(idx, ver) => ver <= s.firstVer && (ver == s.firstVer ==> idx == s.first)
    case PutWrite(item, idx, ticket) =>
      ticket < |s.accepted| && s.size > 0 && idx == ticket % s.size && item == s.accepted[ticket]
    case GetRead(idx, ticket) => ticket < s.taken && s.size > 0 && idx == ticket % s.size
    case _ => true
  }

  function Reserved(s: State): nat { Sum(s.threads, Reserving) }

  function Claimed(s: State): nat { Sum(s.threads, Claiming) }

  /** The counting invariant, kept by every step of every thread. */
  predicate Counted(s: State) {
    && 1 <= s.size <= 255 && |s.items| == s.size
    && s.last == |s.accepted| % s.size && s.first == s.taken % s.size
    && s.count == |s.accepted| + Reserved(s) - (s.taken + Claimed(s))
    && s.count <= s.size
    && (forall t | 0 <= t < |s.threads| :: Knows(s, s.threads[t]))
  }

  /** The shared variables only move forward: a variable whose version stands still has not changed. */
  predicate Forward(s: State, r: State) {
    && r.size == s.size
    && s.countVer <= r.countVer && (s.countVer == r.countVer ==> s.count == r.count)
    && s.lastVer <= r.lastVer && (s.lastVer == r.lastVer ==> s.last == r.last)
    && s.firstVer <= r.firstVer && (s.firstVer == r.firstVer ==> s.first == r.first)
    && s.accepted <= r.accepted && s.taken <= r.taken
  }

  lemma KnowsStays(s: State, r: State, pc: Pc)
    requires Forward(s, r) && Knows(s, pc)
    ensures Knows(r, pc)
  {
  }

  /** One thread moves from pc to pc', the others only see time go by. */
  predicate Moves(s: State, r: State, t: nat) {
    && t < |s.threads| && |r.threads| == |s.threads| && r.threads == s.threads[t := r.threads[t]]
    && Forward(s, r) && Knows(r, r.threads[t])
    && 0 < r.size == |r.items| && r.last == |r.accepted| % r.size && r.first == r.taken % r.size
    && r.count - s.count == (|r.accepted| - |s.accepted|) + (Reserving(r.threads[t]) - Reserving(s.threads[t]))
                            - (r.taken - s.taken) - (Claiming(r.threads[t]) - Claiming(s.threads[t]))
    && r.count <= r.size
  }

  lemma MovesKeepsCounted(s: State, r: State, t: nat)
    requires Counted(s) && Moves(s, r, t)
    ensures Counted(r)
  {
    SumUpdate(s.threads, Reserving, t, r.threads[t]);
    SumUpdate(s.threads, Claiming, t, r.threads[t]);
    forall u | 0 <= u < |r.threads| ensures Knows(r, r.threads[u]) {
      if u != t {
        KnowsStays(s, r, s.threads[u]);
      }
    }
  }

  lemma PutMoves(s: State, t: nat, fails: bool)
    requires Counted(s) && t < |s.threads| && InPut(s.threads[t])
    ensures Moves(s, PutStep(s, t, fails), t)
  {
    assert Knows(s, s.threads[t]);
    match s.threads[t]
    case PutReserve(_, cnt, _) => assert Inc8(cnt) == cnt + 1;
    case PutAdvance(_, _, _) => ModSucc(|s.accepted|, s.size);
    case _ =>
  }

  lemma GetMoves(s: State, t: nat, fails: bool)
    requires Counted(s) && t < |s.threads| && !InPut(s.threads[t])
    ensures Moves(s, GetStep(s, t, fails), t)
  {
    assert Knows(s, s.threads[t]);
    match s.threads[t]
    case GetReserve(_, _) => GetReserveMoves(s, t, fails);
    case GetAdvance(_, _) => GetAdvanceMoves(s, t, fails);
    case _ =>
  }

  lemma GetReserveMoves(s: State, t: nat, fails: bool)
    requires Counted(s) && t < |s.threads| && s.threads[t].GetReserve?
    ensures Moves(s, GetStep(s, t, fails), t)
  {
    assert Knows(s, s.threads[t]);
    DecExact(s.threads[t].cnt);
  }

  lemma GetAdvanceMoves(s: State, t: nat, fails: bool)
    requires Counted(s) && t < |s.threads| && s.threads[t].GetAdvance?
    ensures Moves(s, GetStep(s, t, fails), t)
  {
    assert Knows(s, s.threads[t]);
    ModSucc(s.taken, s.size);
  }

  lemma DecExact(x: nat)
    requires 0 < x < 256
    ensures Dec8(x) == x - 1
  {
    assert x + 255 == 256 + (x - 1);
  }

  lemma NextKeepsCounted(s: State, t: nat, a: Act)
    requires Counted(s)
    ensures Counted(Next(s, t, a)) && (t < |s.threads| ==> Moves(s, Next(s, t, a), t))
  {
    if t < |s.threads| {
      if a.Go? {
        if InPut(s.threads[t]) {
          PutMoves(s, t, a.strexFails);
        } else {
          GetMoves(s, t, a.strexFails);
        }
      }
      MovesKeepsCounted(s, Next(s, t, a), t);
    }
  }

  lemma InitCounted(items: seq<Item>, threads: nat)
    requires 1 <= |items| <= 255
    ensures Counted(Init(items, |items|, threads))
  {
    var s := Init(items, |items|, threads);
    SumZero(s.threads, Reserving);
    SumZero(s.threads, Claiming);
  }

  /** Whatever arbitrarily many threads do, in whatever order: counts and indices agree with the totals. */
  lemma {:induction false} RunKeepsCounted(s: State, steps: seq<(nat, Act)>)
    requires Counted(s)
    ensures Counted(Run(s, steps))
    decreases |steps|
  {
    if steps != [] {
      NextKeepsCounted(s, steps[0].0, steps[0].1);
      RunKeepsCounted(Next(s, steps[0].0, steps[0].1), steps[1..]);
    }
  }

  // ---- First in, first out ----

  predicate PutBusy(pc: Pc) { pc.PutLoadLast? || pc.PutAdvance? || pc.PutWrite? }

  predicate GetBusy(pc: Pc) { pc.GetLoadFirst? || pc.GetAdvance? || pc.GetRead? }

  predicate NoPuts(s: State) { forall t | 0 <= t < |s.threads| :: !PutBusy(s.threads[t]) }

  predicate NoGets(s: State) { forall t | 0 <= t < |s.threads| :: !GetBusy(s.threads[t]) }

  predicate Writing(s: State, k: nat) {
    exists t | 0 <= t < |s.threads| :: s.threads[t].PutWrite? && s.threads[t].ticket == k
  }

  predicate Reading(s: State, k: nat) {
    exists t | 0 <= t < |s.threads| :: s.threads[t].GetRead? && s.threads[t].ticket == k
  }

  /** Stored and not about to be stored again: the item of ticket k has landed in its slot. */
  predicate Landed(s: State, k: nat) { k < |s.accepted| && !Writing(s, k) }

  /** The item of ticket k lies in the ring and nobody has read it yet. */
  predicate Unread(s: State, k: nat) { Landed(s, k) && k !in s.returned }

  // ---- What every interleaving keeps ----

  /** No ticket is held twice. */
  predicate OwnTickets(s: State) {
    forall t, u | 0 <= t < u < |s.threads| ::
      && (s.threads[t].PutWrite? && s.threads[u].PutWrite? ==> s.threads[t].ticket != s.threads[u].ticket)
      && (s.threads[t].GetRead? && s.threads[u].GetRead? ==> s.threads[t].ticket != s.threads[u].ticket)
  }

  /** Every slot holds the item of the ticket last stored there. */
  predicate SlotsTell(s: State)
    requires 0 < s.size == |s.items|
  {
    && |s.stored| == s.size
    && forall i | 0 <= i < s.size && s.stored[i] >= 0 ::
         Landed(s, s.stored[i]) && s.stored[i] % s.size == i && s.items[i] == s.accepted[s.stored[i]]
  }

  /** Every ticket handed to a reader is being read or has been answered, with the item of its source. */
  predicate AnswersTell(s: State) {
    && (forall k: nat | k < s.taken :: k in s.returned || Reading(s, k))
    && (forall k | k in s.returned :: k < s.taken && !Reading(s, k) && k in s.sources)
    && (forall k | k in s.returned && s.sources[k] >= 0 ::
          Landed(s, s.sources[k]) && s.returned[k] == s.accepted[s.sources[k]])
  }

  predicate Recorded(s: State) {
    Counted(s) && OwnTickets(s) && SlotsTell(s) && AnswersTell(s)
  }

  /** The writers and readers of r are those of s, thread t apart. */
  lemma Elsewhere(s: State, r: State, t: nat, k: nat)
    requires t < |s.threads| == |r.threads| && r.threads == s.threads[t := r.threads[t]] && OwnTickets(s)
    ensures Writing(r, k) <==>
              (Writing(s, k) && !(s.threads[t].PutWrite? && s.threads[t].ticket == k))
              || (r.threads[t].PutWrite? && r.threads[t].ticket == k)
    ensures Reading(r, k) <==>
              (Reading(s, k) && !(s.threads[t].GetRead? && s.threads[t].ticket == k))
              || (r.threads[t].GetRead? && r.threads[t].ticket == k)
  {
    forall u | 0 <= u < |s.threads| && u != t ensures r.threads[u] == s.threads[u] {
    }
    if Writing(s, k) {
      var u :| 0 <= u < |s.threads| && s.threads[u].PutWrite? && s.threads[u].ticket == k;
      assert u != t ==> r.threads[u] == s.threads[u];
    }
    if Reading(s, k) {
      var u :| 0 <= u < |s.threads| && s.threads[u].GetRead? && s.threads[u].ticket == k;
      assert u != t ==> r.threads[u] == s.threads[u];
    }
  }

  /** How the records of r follow from those of s in one step of thread t; nothing is ever taken back. */
  datatype Change = Quiet | Ticketed | Stores(k: nat) | Claims | Answers(k: nat)

  predicate Changed(s: State, r: State, t: nat, c: Change) {
    && t < |s.threads| == |r.threads| && r.threads == s.threads[t := r.threads[t]] && r.size == s.size
    && (var p, q := s.threads[t], r.threads[t];
        match c
        case Quiet =>
          && !p.PutWrite? && !p.GetRead? && !q.PutWrite? && !q.GetRead?
          && r.items == s.items && r.stored == s.stored && r.accepted == s.accepted
          && r.taken == s.taken && r.returned == s.returned && r.sources == s.sources
        case Ticketed =>
          && p.PutAdvance? && q == PutWrite(p.item, p.idx, |s.accepted|)
          && r.items == s.items && r.stored == s.stored && r.accepted == s.accepted + [p.item]
          && r.taken == s.taken && r.returned == s.returned && r.sources == s.sources
        case Stores(k) =>
          && p.PutWrite? && p.ticket == k && q.Idle?
          && r.items == Store(s.items, p.idx, p.item) && r.stored == Mark(s.stored, p.idx, k)
          && r.accepted == s.accepted && r.taken == s.taken && r.returned == s.returned && r.sources == s.sources
        case Claims =>
          && p.GetAdvance? && q == GetRead(p.idx, s.taken)
          && r.items == s.items && r.stored == s.stored && r.accepted == s.accepted
          && r.taken == s.taken + 1 && r.returned == s.returned && r.sources == s.sources
        case Answers(k) =>
          && p.GetRead? && p.ticket == k && q.Idle?
          && r.items == s.items && r.stored == s.stored && r.accepted == s.accepted && r.taken == s.taken
          && r.returned == s.returned[k := Load(s.items, p.idx)]
          && r.sources == s.sources[k := Source(s.stored, p.idx)])
  }

  /** The kind of change a step makes. */
  function ChangeOf(s: State, t: nat, a: Act): Change
    requires t < |s.threads|
  {
    if !a.Go? then Quiet
    else match s.threads[t]
      case PutWrite(_, _, k) => Stores(k)
      case GetRead(_, k) => Answers(k)
      case PutAdvance(_, _, ver) => if !a.strexFails && ver == s.lastVer then Ticketed else Quiet
      case GetAdvance(_, ver) => if !a.strexFails && ver == s.firstVer then Claims else Quiet
      case _ => Quiet
  }

  lemma PutChanges(s: State, t: nat, fails: bool)
    requires t < |s.threads| && InPut(s.threads[t])
    ensures Changed(s, PutStep(s, t, fails), t, ChangeOf(s, t, Go(fails)))
  {
  }

  lemma GetChanges(s: State, t: nat, fails: bool)
    requires t < |s.threads| && !InPut(s.threads[t]) && !s.threads[t].Idle?
    ensures Changed(s, GetStep(s, t, fails), t, ChangeOf(s, t, Go(fails)))
  {
  }

  lemma StepChanges(s: State, t: nat, a: Act)
    requires t < |s.threads| && Next(s, t, a) != s
    ensures Changed(s, Next(s, t, a), t, ChangeOf(s, t, a))
  {
    if a.Go? {
      if InPut(s.threads[t]) {
        PutChanges(s, t, a.strexFails);
      } else {
        GetChanges(s, t, a.strexFails);
      }
    }
  }

  lemma TicketsStayOwn(s: State, r: State, t: nat, c: Change)
    requires Recorded(s) && Changed(s, r, t, c)
    ensures OwnTickets(r)
  {
    forall u | 0 <= u < |s.threads| ensures Knows(s, s.threads[u]) {
    }
  }

  lemma SlotsStillTell(s: State, r: State, t: nat, c: Change)
    requires Recorded(s) && Changed(s, r, t, c) && |r.items| == r.size
    ensures SlotsTell(r)
  {
    assert Knows(s, s.threads[t]);
    forall i | 0 <= i < r.size && r.stored[i] >= 0
      ensures Landed(r, r.stored[i]) && r.stored[i] % r.size == i && r.items[i] == r.accepted[r.stored[i]]
    {
      Elsewhere(s, r, t, r.stored[i]);
    }
  }

  lemma AnswersStillTell(s: State, r: State, t: nat, c: Change)
    requires Recorded(s) && Changed(s, r, t, c)
    ensures AnswersTell(r)
  {
    assert Knows(s, s.threads[t]);
    forall k: nat ensures Reading(r, k) <==>
      (Reading(s, k) && c != Answers(k)) || (c.Claims? && k == s.taken)
    {
      Elsewhere(s, r, t, k);
    }
    forall k | k in r.returned && r.sources[k] >= 0
      ensures Landed(r, r.sources[k]) && r.returned[k] == r.accepted[r.sources[k]]
    {
      Elsewhere(s, r, t, r.sources[k]);
    }
  }

  /** No guard at all: the records are right in every state any number of threads can reach. */
  lemma NextKeepsRecorded(s: State, t: nat, a: Act)
    requires Recorded(s)
    ensures Recorded(Next(s, t, a))
  {
    var r := Next(s, t, a);
    if r != s {
      NextKeepsCounted(s, t, a);
      StepChanges(s, t, a);
      TicketsStayOwn(s, r, t, ChangeOf(s, t, a));
      SlotsStillTell(s, r, t, ChangeOf(s, t, a));
      AnswersStillTell(s, r, t, ChangeOf(s, t, a));
    }
  }

  // ---- First in, first out, exactly ----

  /**
   Every completed get has found the item of its own ticket, and every item stored and not yet read is still
   where its get will look. This is about tickets, so it does not depend on which items are equal.
  */
  ghost predicate Fifo(s: State)
    requires 0 < s.size
  {
    && (forall k | k in s.returned :: k in s.sources && s.sources[k] == k)
    && (forall k: nat {:trigger Unread(s, k)} | Unread(s, k) :: Source(s.stored, k % s.size) == k)
  }

  /**
   The two steps that can go wrong: reading a slot whose put has not landed, and storing over an item that is
   still to be read. Both can be told from the threads and counters as they stand before the step.
  */
  predicate Right(s: State, t: nat, a: Act)
    requires 0 < s.size
  {
    t < |s.threads| && a.Go? ==>
      match s.threads[t]
      case GetRead(_, k) => Landed(s, k)
      case PutWrite(_, _, k) =>
        forall j: nat | j < |s.accepted| && j % s.size == k % s.size && !Writing(s, j) :: j < s.taken && !Reading(s, j)
      case _ => true
  }

  /** Ticket j has got, or is bound to get, something else than its own item. */
  ghost predicate Astray(s: State, j: nat)
    requires 0 < s.size
  {
    || (j in s.returned && !(j in s.sources && s.sources[j] == j))
    || (Unread(s, j) && Source(s.stored, j % s.size) != j)
  }

  lemma FifoMeansNoneAstray(s: State)
    requires 0 < s.size
    ensures Fifo(s) <==> forall j: nat :: !Astray(s, j)
  {
    if forall j: nat :: !Astray(s, j) {
      forall k: nat | k in s.returned ensures k in s.sources && s.sources[k] == k {
        assert !Astray(s, k);
      }
      forall k: nat | Unread(s, k) ensures Source(s.stored, k % s.size) == k {
        assert !Astray(s, k);
      }
    }
  }

  /** A right step leads no ticket astray. */
  lemma RightKeepsFifo(s: State, t: nat, a: Act, j: nat)
    requires Recorded(s) && Fifo(s) && t < |s.threads| && Right(s, t, a)
    ensures !Astray(Next(s, t, a), j)
  {
    var r := Next(s, t, a);
    if r == s {
      FifoMeansNoneAstray(s);
    } else {
      var c := ChangeOf(s, t, a);
      StepChanges(s, t, a);
      assert Knows(s, s.threads[t]);
      if c.Answers? {
        RightAnswer(s, r, t, c.k, j);
      } else if c.Stores? {
        RightStore(s, r, t, c.k, j);
      } else {
        OtherSteps(s, r, t, c, j);
      }
    }
  }

  lemma OtherSteps(s: State, r: State, t: nat, c: Change, j: nat)
    requires Recorded(s) && Fifo(s) && Changed(s, r, t, c) && !c.Answers? && !c.Stores?
    ensures !Astray(r, j)
  {
    Elsewhere(s, r, t, j);
    assert Unread(r, j) ==> Unread(s, j);
  }

  lemma RightAnswer(s: State, r: State, t: nat, k: nat, j: nat)
    requires Recorded(s) && Fifo(s) && Landed(s, k) && Changed(s, r, t, Answers(k)) && Knows(s, s.threads[t])
    ensures !Astray(r, j)
  {
    assert Reading(s, k);
    assert Unread(s, k);
    Elsewhere(s, r, t, j);
    assert Unread(r, j) ==> Unread(s, j);
  }

  lemma RightStore(s: State, r: State, t: nat, k: nat, j: nat)
    requires Recorded(s) && Fifo(s) && Changed(s, r, t, Stores(k)) && Knows(s, s.threads[t])
    requires forall i: nat | i < |s.accepted| && i % s.size == k % s.size && !Writing(s, i) ::
               i < s.taken && !Reading(s, i)
    ensures !Astray(r, j)
  {
    Elsewhere(s, r, t, j);
    assert Unread(r, j) && j != k ==> Unread(s, j);
    assert Unread(s, j) ==> j % s.size != k % s.size;
  }

  /** A wrong one leads one astray: the ticket it answers, or the one whose item it stores over. */
  lemma WrongBreaksFifo(s: State, t: nat, a: Act)
    requires Recorded(s) && Fifo(s) && !Right(s, t, a)
    ensures exists j: nat :: Astray(Next(s, t, a), j)
  {
    var r := Next(s, t, a);
    var p := s.threads[t];
    StepChanges(s, t, a);
    assert Knows(s, p);
    if p.GetRead? {
      assert Source(s.stored, p.idx) >= 0 ==> Landed(s, Source(s.stored, p.idx));
      assert r.sources[p.ticket] != p.ticket;
      assert Astray(r, p.ticket);
    } else {
      var j: nat :| j < |s.accepted| && j % s.size == p.ticket % s.size && !Writing(s, j)
                    && !(j < s.taken && !Reading(s, j));
      assert Writing(s, p.ticket);
      assert r.stored[j % s.size] == p.ticket;
      Elsewhere(s, r, t, j);
      assert Unread(r, j);
      assert Astray(r, j);
    }
  }

  /** What has gone astray stays astray: later steps cannot repair it. */
  lemma AstrayStays(s: State, t: nat, a: Act, j: nat)
    requires Recorded(s) && Astray(s, j)
    ensures Astray(Next(s, t, a), j)
  {
    var r := Next(s, t, a);
    if r != s {
      StepChanges(s, t, a);
      assert Knows(s, s.threads[t]);
      Elsewhere(s, r, t, j);
      if s.threads[t].GetRead? {
        assert Reading(s, s.threads[t].ticket);
      }
      if s.threads[t].PutWrite? {
        assert Writing(s, s.threads[t].ticket);
      }
    }
  }

  /** A step keeps FIFO exactly if it is right, and never restores it. */
  lemma NextExact(s: State, t: nat, a: Act)
    requires Recorded(s)
    ensures Fifo(Next(s, t, a)) <==> Fifo(s) && Right(s, t, a)
  {
    var r := Next(s, t, a);
    NextKeepsRecorded(s, t, a);
    FifoMeansNoneAstray(s);
    FifoMeansNoneAstray(r);
    if !Fifo(s) {
      var j: nat :| Astray(s, j);
      AstrayStays(s, t, a, j);
    } else if !Right(s, t, a) {
      WrongBreaksFifo(s, t, a);
    } else if t < |s.threads| {
      forall j: nat ensures !Astray(r, j) {
        RightKeepsFifo(s, t, a, j);
      }
    }
  }

  ghost predicate RightRun(s: State, steps: seq<(nat, Act)>)
    requires Recorded(s)
    decreases |steps|
  {
    steps == [] ||
    (Right(s, steps[0].0, steps[0].1)
     && (NextKeepsRecorded(s, steps[0].0, steps[0].1); RightRun(Next(s, steps[0].0, steps[0].1), steps[1..])))
  }

  lemma {:induction false} RunExact(s: State, steps: seq<(nat, Act)>)
    requires Recorded(s)
    ensures Recorded(Run(s, steps))
    ensures Fifo(Run(s, steps)) <==> Fifo(s) && RightRun(s, steps)
    decreases |steps|
  {
    if steps != [] {
      NextKeepsRecorded(s, steps[0].0, steps[0].1);
      NextExact(s, steps[0].0, steps[0].1);
      RunExact(Next(s, steps[0].0, steps[0].1), steps[1..]);
    }
  }

  lemma InitFifo(items: seq<Item>, threads: nat)
    requires 1 <= |items| <= 255
    ensures Recorded(Init(items, |items|, threads)) && Fifo(Init(items, |items|, threads))
  {
    InitCounted(items, threads);
  }

  predicate Quiescent(s: State) { forall t | 0 <= t < |s.threads| :: s.threads[t].Idle? }

  /**
   When all calls are over, FIFO means what callers see: the oldest items returned, the others in the ring, in
   order.
  */
  lemma QuiescentFifo(s: State)
    requires Recorded(s) && Quiescent(s) && Fifo(s)
    ensures s.taken <= |s.accepted| && s.count == |s.accepted| - s.taken
    ensures forall k: nat :: k in s.returned <==> k < s.taken
    ensures forall k: nat | k < s.taken :: s.returned[k] == s.accepted[k]
    ensures From(s.items, s.taken, s.count) == s.accepted[s.taken..]
  {
    SumZero(s.threads, Reserving);
    SumZero(s.threads, Claiming);
    forall k: nat | k < s.taken ensures k in s.returned && s.returned[k] == s.accepted[k] {
      assert k in s.returned || Reading(s, k);
      assert s.sources[k] == k;
    }
    forall i | 0 <= i < s.count ensures From(s.items, s.taken, s.count)[i] == s.accepted[s.taken..][i] {
      var k: nat := s.taken + i;
      assert k !in s.returned;
      assert Unread(s, k);
      assert s.stored[k % s.size] == k;
    }
  }

  /**
   FIFO, exactly: when all calls of any number of threads in any interleaving are over, every get has returned
   the item of its ticket and the ring holds the others in ticket order if and only if no step of the run read
   a slot before its put had landed or stored over an unread item.
  */
  lemma RunsAreFifoExactly(items: seq<Item>, threads: nat, steps: seq<(nat, Act)>)
    requires 1 <= |items| <= 255
    ensures Recorded(Init(items, |items|, threads))
    ensures var s := Run(Init(items, |items|, threads), steps);
            && Recorded(s) && (Fifo(s) <==> RightRun(Init(items, |items|, threads), steps))
            && (Fifo(s) && Quiescent(s) ==>
                  && s.taken <= |s.accepted| && s.count == |s.accepted| - s.taken
                  && (forall k: nat :: k in s.returned <==> k < s.taken)
                  && (forall k: nat | k < s.taken :: s.returned[k] == s.accepted[k])
                  && From(s.items, s.taken, s.count) == s.accepted[s.taken..])
  {
    var i := Init(items, |items|, threads);
    InitFifo(items, threads);
    RunExact(i, steps);
    if Fifo(Run(i, steps)) && Quiescent(Run(i, steps)) {
      QuiescentFifo(Run(i, steps));
    }
  }

  // ---- A discipline callers can keep: puts may overlap puts, gets may overlap gets ----

  /** The step by which a put (a get) takes its place in the count. */
  predicate Reserves(s: State, t: nat, a: Act) {
    && t < |s.threads| && a.Go? && !a.strexFails
    && (s.threads[t].PutReserve? || s.threads[t].GetReserve?) && s.threads[t].ver == s.countVer
  }

  /** No put reserves while a get is between its reservation and its read, nor a get while a put is. */
  predicate Phased(s: State, t: nat, a: Act) {
    Reserves(s, t, a) ==> if s.threads[t].PutReserve? then NoGets(s) else NoPuts(s)
  }

  lemma PhaseKept(s: State, t: nat, a: Act)
    requires (NoPuts(s) || NoGets(s)) && Phased(s, t, a)
    ensures NoPuts(Next(s, t, a)) || NoGets(Next(s, t, a))
  {
    var r := Next(s, t, a);
    if t < |s.threads| {
      OneMoves(s, t, a);
      if NoPuts(s) && !PutBusy(r.threads[t]) {
        assert NoPuts(r);
      } else if NoGets(s) && !GetBusy(r.threads[t]) {
        assert NoGets(r);
      }
    }
  }

  /** Who is busy in r was so in s, the thread that reserves apart. */
  predicate BusyKept(s: State, r: State, t: nat, a: Act)
    requires t < |s.threads|
  {
    && |r.threads| == |s.threads| && r.threads == s.threads[t := r.threads[t]]
    && (PutBusy(r.threads[t]) ==> PutBusy(s.threads[t]) || (s.threads[t].PutReserve? && Reserves(s, t, a)))
    && (GetBusy(r.threads[t]) ==> GetBusy(s.threads[t]) || (s.threads[t].GetReserve? && Reserves(s, t, a)))
  }

  lemma PutsKeepBusy(s: State, t: nat, fails: bool)
    requires t < |s.threads| && InPut(s.threads[t])
    ensures BusyKept(s, PutStep(s, t, fails), t, Go(fails))
  {
  }

  lemma GetsKeepBusy(s: State, t: nat, fails: bool)
    requires t < |s.threads| && !InPut(s.threads[t])
    ensures BusyKept(s, GetStep(s, t, fails), t, Go(fails))
  {
  }

  lemma OneMoves(s: State, t: nat, a: Act)
    requires t < |s.threads|
    ensures BusyKept(s, Next(s, t, a), t, a)
  {
    if a.Go? {
      if InPut(s.threads[t]) {
        PutsKeepBusy(s, t, a.strexFails);
      } else {
        GetsKeepBusy(s, t, a.strexFails);
      }
    }
  }

  /** While no get is under way the tickets of the unread items lie in one turn of the ring. */
  lemma PutsFit(s: State)
    requires Counted(s) && NoGets(s)
    ensures |s.accepted| + Reserved(s) <= s.taken + s.size
  {
    SumZero(s.threads, Claiming);
  }

  lemma GetsHave(s: State)
    requires Counted(s) && NoPuts(s)
    ensures s.taken <= |s.accepted|
  {
    SumZero(s.threads, Reserving);
  }

  /**
   While no get is under way, producers about to store never share a slot, and their slots hold nothing that is
   still to be read.
  */
  lemma WritersHaveFreeSlots(s: State, t: nat)
    requires Recorded(s) && Fifo(s) && NoGets(s) && t < |s.threads| && s.threads[t].PutWrite?
    ensures forall u | 0 <= u < |s.threads| && u != t && s.threads[u].PutWrite? :: s.threads[u].idx != s.threads[t].idx
    ensures s.taken <= s.threads[t].ticket
    ensures forall k | s.taken <= k < |s.accepted| && k != s.threads[t].ticket :: k % s.size != s.threads[t].idx
  {
    PutsFit(s);
    forall u | 0 <= u < |s.threads| && s.threads[u].PutWrite? ensures s.taken <= s.threads[u].ticket {
      WritersAhead(s, u);
    }
    var j := s.threads[t].ticket;
    assert Knows(s, s.threads[t]);
    forall k | s.taken <= k < |s.accepted| && k != j ensures k % s.size != j % s.size {
      if k < j {
        ModApart(k, j, s.size);
      } else {
        ModApart(j, k, s.size);
      }
    }
    forall u | 0 <= u < |s.threads| && u != t && s.threads[u].PutWrite?
      ensures s.threads[u].idx != s.threads[t].idx
    {
      assert Knows(s, s.threads[u]);
    }
  }

  lemma WritersAhead(s: State, t: nat)
    requires Recorded(s) && Fifo(s) && NoGets(s) && t < |s.threads| && s.threads[t].PutWrite?
    ensures s.taken <= s.threads[t].ticket
  {
    var k := s.threads[t].ticket;
    assert Knows(s, s.threads[t]) && Writing(s, k);
    assert !Landed(s, k) && !Reading(s, k);
    assert k !in s.returned;
  }

  lemma PhasedIsRight(s: State, t: nat, a: Act)
    requires Recorded(s) && Fifo(s) && (NoPuts(s) || NoGets(s))
    ensures Right(s, t, a)
  {
    if t < |s.threads| && a.Go? {
      var p := s.threads[t];
      assert Knows(s, p);
      if p.GetRead? {
        assert GetBusy(p);
        GetsHave(s);
      } else if p.PutWrite? {
        assert PutBusy(p) && Writing(s, p.ticket);
        WritersHaveFreeSlots(s, t);
      }
    }
  }

  predicate PhasedRun(s: State, steps: seq<(nat, Act)>)
    decreases |steps|
  {
    steps == [] || (Phased(s, steps[0].0, steps[0].1) && PhasedRun(Next(s, steps[0].0, steps[0].1), steps[1..]))
  }

  lemma {:induction false} PhasedRunIsRight(s: State, steps: seq<(nat, Act)>)
    requires Recorded(s) && Fifo(s) && (NoPuts(s) || NoGets(s)) && PhasedRun(s, steps)
    ensures RightRun(s, steps)
    decreases |steps|
  {
    if steps != [] {
      PhasedIsRight(s, steps[0].0, steps[0].1);
      NextKeepsRecorded(s, steps[0].0, steps[0].1);
      NextExact(s, steps[0].0, steps[0].1);
      PhaseKept(s, steps[0].0, steps[0].1);
      PhasedRunIsRight(Next(s, steps[0].0, steps[0].1), steps[1..]);
    }
  }

  /** Puts overlapping puts and gets overlapping gets, any number of threads in any interleaving. */
  lemma PhasedRunsAreFifo(items: seq<Item>, threads: nat, steps: seq<(nat, Act)>)
    requires 1 <= |items| <= 255
    requires PhasedRun(Init(items, |items|, threads), steps)
    requires Quiescent(Run(Init(items, |items|, threads), steps))
    ensures var s := Run(Init(items, |items|, threads), steps);
            && Counted(s) && s.taken <= |s.accepted| && s.count == |s.accepted| - s.taken
            && (forall k: nat :: k in s.returned <==> k < s.taken)
            && (forall k: nat | k < s.taken :: s.returned[k] == s.accepted[k])
            && From(s.items, s.taken, s.count) == s.accepted[s.taken..]
  {
    var i := Init(items, |items|, threads);
    InitFifo(items, threads);
    PhasedRunIsRight(i, steps);
    RunsAreFifoExactly(items, threads, steps);
  }

  // ---- A put and a get at the same time ----

  lemma {:induction false} RunSplit(s: State, a: seq<(nat, Act)>, b: seq<(nat, Act)>)
    ensures Run(s, a + b) == Run(Run(s, a), b)
    decreases |a|
  {
    if a == [] {
      assert a + b == b;
    } else {
      assert (a + b)[0] == a[0] && (a + b)[1..] == a[1..] + b;
      RunSplit(Next(s, a[0].0, a[0].1), a[1..], b);
    }
  }

  lemma RunOne(s: State, t: nat, a: Act)
    ensures Run(s, [(t, a)]) == Next(s, t, a)
  {
    assert Run(s, [(t, a)]) == Run(Next(s, t, a), [(t, a)][1..]);
  }

  function Repeat(t: nat, n: nat): seq<(nat, Act)> {
    if n == 0 then [] else [(t, Go(false))] + Repeat(t, n - 1)
  }

  lemma RunRepeat(s: State, t: nat, n: nat)
    ensures Run(s, Repeat(t, n)) == if n == 0 then s else Run(Next(s, t, Go(false)), Repeat(t, n - 1))
  {
    if n > 0 {
      assert Repeat(t, n)[1..] == Repeat(t, n - 1);
    }
  }

  /** The ring of one slot after thread 0 has counted its item, but neither advanced nor stored. */
  function HalfPut(): State {
    State(1, [0], 1, 0, 0, 1, 0, 0, [PutLoadLast(7), Idle], [], 0, map[], [-1], map[])
  }

  /** The same after thread 1 has run a whole get. */
  function Overtaken(): State {
    State(1, [0], 0, 0, 0, 2, 0, 1, [PutLoadLast(7), Idle], [], 1, map[0 := 0], [-1], map[0 := -1])
  }

  lemma PutHalf()
    ensures Run(Init([0], 1, 2), [(0, CallPut(7))] + Repeat(0, 2)) == HalfPut()
  {
    var s := Init([0], 1, 2);
    assert s.threads == [Idle, Idle];
    RunSplit(s, [(0, CallPut(7))], Repeat(0, 2));
    RunOne(s, 0, CallPut(7));
    var s1 := s.(threads := [PutLoad(7), Idle]);
    var s2 := s.(threads := [PutReserve(7, 0, 0), Idle]);
    RunRepeat(s1, 0, 2);
    RunRepeat(s2, 0, 1);
    RunRepeat(HalfPut(), 0, 0);
    assert Next(s1, 0, Go(false)) == s2;
    assert Next(s2, 0, Go(false)) == HalfPut();
  }

  lemma GetReserves()
    ensures Run(HalfPut(), [(1, CallGet)] + Repeat(1, 2))
         == HalfPut().(threads := [PutLoadLast(7), GetLoadFirst], count := 0, countVer := 2)
  {
    var s := HalfPut();
    RunSplit(s, [(1, CallGet)], Repeat(1, 2));
    RunOne(s, 1, CallGet);
    var s1 := s.(threads := [PutLoadLast(7), GetLoad]);
    var s2 := s.(threads := [PutLoadLast(7), GetReserve(1, 1)]);
    var s3 := s.(threads := [PutLoadLast(7), GetLoadFirst], count := 0, countVer := 2);
    RunRepeat(s1, 1, 2);
    RunRepeat(s2, 1, 1);
    RunRepeat(s3, 1, 0);
    assert Next(s1, 1, Go(false)) == s2;
    assert Next(s2, 1, Go(false)) == s3;
  }

  lemma GetReturns()
    ensures Run(HalfPut().(threads := [PutLoadLast(7), GetLoadFirst], count := 0, countVer := 2), Repeat(1, 3))
         == Overtaken()
  {
    var s3 := HalfPut().(threads := [PutLoadLast(7), GetLoadFirst], count := 0, countVer := 2);
    var s4 := s3.(threads := [PutLoadLast(7), GetAdvance(0, 0)]);
    var s5 := s3.(threads := [PutLoadLast(7), GetRead(0, 0)], firstVer := 1, taken := 1);
    RunRepeat(s3, 1, 3);
    RunRepeat(s4, 1, 2);
    RunRepeat(s5, 1, 1);
    RunRepeat(Overtaken(), 1, 0);
    assert Next(s3, 1, Go(false)) == s4;
    assert Next(s4, 1, Go(false)) == s5;
    assert Next(s5, 1, Go(false)) == Overtaken();
  }

  lemma PutFinishes()
    ensures Run(Overtaken(), Repeat(0, 3))
         == Overtaken().(threads := [Idle, Idle], items := [7], stored := [0], lastVer := 1, accepted := [7])
  {
    var s := Overtaken();
    var s1 := s.(threads := [PutAdvance(7, 0, 0), Idle]);
    var s2 := s.(threads := [PutWrite(7, 0, 0), Idle], lastVer := 1, accepted := [7]);
    var s3 := s2.(threads := [Idle, Idle], items := [7], stored := [0]);
    RunRepeat(s, 0, 3);
    RunRepeat(s1, 0, 2);
    RunRepeat(s2, 0, 1);
    RunRepeat(s3, 0, 0);
    assert Next(s, 0, Go(false)) == s1;
    assert Next(s1, 0, Go(false)) == s2;
    assert Next(s2, 0, Go(false)) == s3;
  }

  /**
   A run that is not right: a get that overtakes a half-done put returns what lay in the slot before (0),
   and the item put (7) is never returned, although every call is over and the count is back to 0.
  */
  lemma OverlappingGetReadsUnwritten() returns (steps: seq<(nat, Act)>)
    ensures var s := Run(Init([0], 1, 2), steps);
            Quiescent(s) && s.accepted == [7] && s.returned == map[0 := 0] && s.count == 0
  {
    var a, b, c, d := [(0, CallPut(7))] + Repeat(0, 2), [(1, CallGet)] + Repeat(1, 2), Repeat(1, 3), Repeat(0, 3);
    steps := a + (b + (c + d));
    RunSplit(Init([0], 1, 2), a, b + (c + d));
    PutHalf();
    RunSplit(HalfPut(), b, c + d);
    GetReserves();
    RunSplit(Run(HalfPut(), b), c, d);
    GetReturns();
    PutFinishes();
  }
}
