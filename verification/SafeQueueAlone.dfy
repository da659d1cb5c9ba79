/**
 What one call of the lock-free ring does when no other thread moves meanwhile, whatever the others are in the
 middle of; and when a call gives up, whatever the others do.
*/
module SafeQueueAlone {
  import opened Modular
  import opened Rings
  import opened SafeQueue

  /** Instructions of thread t; an exclusive store fails where it says so. */
  function Gos(t: nat, fails: seq<bool>): seq<(nat, Act)> {
    if fails == [] then [] else [(t, Go(fails[0]))] + Gos(t, fails[1..])
  }

  function Failures(fails: seq<bool>): nat {
    if fails == [] then 0 else (if fails[0] then 1 else 0) + Failures(fails[1..])
  }

  // ---- The five instructions of a call ----

  /**
   A call has five instructions: load and store exclusively twice, then the item. With k left, what is left after
   one more; a call that must give up does so at the first.
  */
  function StepFrom(refused: bool, k: nat, fails: bool): nat
    requires k <= 5
    ensures StepFrom(refused, k, fails) <= 5
  {
    if k == 0 || (k == 5 && refused) then 0
    else if fails && (k == 4 || k == 2) then k + 1
    else k - 1
  }

  function StepsFrom(refused: bool, k: nat, fails: seq<bool>): (r: nat)
    requires k <= 5
    ensures r <= 5
    decreases |fails|
  {
    if fails == [] then k else StepsFrom(refused, StepFrom(refused, k, fails[0]), fails[1..])
  }

  /** However the failures are spread, each costs two instructions. */
  lemma {:induction false} StepsEnd(refused: bool, k: nat, fails: seq<bool>)
    requires k <= 5 && |fails| >= k + 2 * Failures(fails)
    ensures StepsFrom(refused, k, fails) == 0
    decreases |fails|
  {
    if fails != [] {
      if k == 0 {
        StaysZero(refused, fails);
      } else {
        StepsEnd(refused, StepFrom(refused, k, fails[0]), fails[1..]);
      }
    }
  }

  lemma {:induction false} StaysZero(refused: bool, fails: seq<bool>)
    ensures StepsFrom(refused, 0, fails) == 0
    decreases |fails|
  {
    if fails != [] {
      StaysZero(refused, fails[1..]);
    }
  }

  // ---- A put ----

  /** The thread may start a call. */
  predicate Ready(s: State, t: nat) {
    && t < |s.threads| && s.threads[t].Idle?
    && s.last < s.size == |s.items| == |s.stored| && s.first < s.size && s.count <= s.size <= 255
  }

  lemma RecordedIsReady(s: State, t: nat)
    requires Recorded(s) && t < |s.threads| && s.threads[t].Idle?
    ensures Ready(s, t)
  {
  }

  /** The item is counted; */
  function Raised(s: State): State { s.(count := s.count + 1, countVer := s.countVer + 1) }

  /** it has the next ticket and the slot behind the others; */
  function Appended(s: State, item: Item): State {
    Raised(s).(last := Advance(s.last, s.size), lastVer := s.lastVer + 1, accepted := s.accepted + [item])
  }

  /** it is there. */
  function PutDone(s: State, item: Item): State
    requires s.last < |s.items| == |s.stored|
  {
    Appended(s, item).(items := s.items[s.last := item], stored := s.stored[s.last := |s.accepted|])
  }

  /** A put of thread t, begun in s, that has k instructions left. */
  function PutAt(s: State, t: nat, item: Item, k: nat): State
    requires Ready(s, t) && k <= 5
  {
    match k
    case 5 => Goto(s, t, PutLoad(item))
    case 4 => Goto(s, t, PutReserve(item, s.count, s.countVer))
    case 3 => Goto(Raised(s), t, PutLoadLast(item))
    case 2 => Goto(Raised(s), t, PutAdvance(item, s.last, s.lastVer))
    case 1 => Goto(Appended(s, item), t, PutWrite(item, s.last, |s.accepted|))
    case _ => if s.count == s.size then s else PutDone(s, item)
  }

  lemma PutGoesOn(s: State, t: nat, item: Item, k: nat, fails: bool)
    requires Ready(s, t) && k <= 5 && (s.count == s.size ==> k == 0 || k == 5)
    ensures Next(PutAt(s, t, item, k), t, Go(fails)) == PutAt(s, t, item, StepFrom(s.count == s.size, k, fails))
  {
    if k == 5 {
      assert s.threads[t := PutLoad(item)][t := Idle] == s.threads;
    } else if k == 1 {
      assert s.threads[t := PutWrite(item, s.last, |s.accepted|)][t := Idle] == s.threads;
    }
  }

  lemma {:induction false} PutRuns(s: State, t: nat, item: Item, k: nat, fails: seq<bool>)
    requires Ready(s, t) && k <= 5 && (s.count == s.size ==> k == 0 || k == 5)
    ensures Run(PutAt(s, t, item, k), Gos(t, fails)) == PutAt(s, t, item, StepsFrom(s.count == s.size, k, fails))
    decreases |fails|
  {
    if fails != [] {
      var g := Gos(t, fails);
      assert g[0] == (t, Go(fails[0])) && g[1..] == Gos(t, fails[1..]);
      PutGoesOn(s, t, item, k, fails[0]);
      PutRuns(s, t, item, StepFrom(s.count == s.size, k, fails[0]), fails[1..]);
    }
  }

  /**
   A put with no other thread in between, from any reachable state: however its stores fail, it ends; refused
   exactly when the ring is full, and otherwise with its item accepted last and stored.
  */
  lemma PutAlone(s: State, t: nat, item: Item, fails: seq<bool>)
    requires Recorded(s) && t < |s.threads| && s.threads[t].Idle? && |fails| >= 5 + 2 * Failures(fails)
    ensures var r, slot := Run(s, [(t, CallPut(item))] + Gos(t, fails)), |s.accepted| % s.size;
            if s.count == s.size then r == s
            else
              && r.accepted == s.accepted + [item] && r.count == s.count + 1 && r.threads == s.threads
              && r.items == s.items[slot := item] && r.stored == s.stored[slot := |s.accepted|]
              && r.last == Advance(s.last, s.size) && r.first == s.first && r.size == s.size
              && r.taken == s.taken && r.returned == s.returned && r.sources == s.sources
  {
    RecordedIsReady(s, t);
    RunSplit(s, [(t, CallPut(item))], Gos(t, fails));
    RunOne(s, t, CallPut(item));
    PutRuns(s, t, item, 5, fails);
    StepsEnd(s.count == s.size, 5, fails);
  }

  // ---- A get ----

  /** One item less is counted; */
  function Lowered(s: State): State
    requires s.count > 0
  {
    s.(count := s.count - 1, countVer := s.countVer + 1)
  }

  /** the ticket of the oldest is taken; */
  function Taken(s: State): State
    requires s.count > 0
  {
    Lowered(s).(first := Advance(s.first, s.size), firstVer := s.firstVer + 1, taken := s.taken + 1)
  }

  /** and answered with what lies in its slot. */
  function GetDone(s: State): State
    requires s.count > 0 && s.first < |s.items| == |s.stored|
  {
    Taken(s).(returned := s.returned[s.taken := s.items[s.first]], sources := s.sources[s.taken := s.stored[s.first]])
  }

  /** A get of thread t, begun in s, that has k instructions left. */
  function GetAt(s: State, t: nat, k: nat): State
    requires Ready(s, t) && k <= 5 && (s.count == 0 ==> k == 0 || k == 5)
  {
    match k
    case 5 => Goto(s, t, GetLoad)
    case 4 => Goto(s, t, GetReserve(s.count, s.countVer))
    case 3 => Goto(Lowered(s), t, GetLoadFirst)
    case 2 => Goto(Lowered(s), t, GetAdvance(s.first, s.firstVer))
    case 1 => Goto(Taken(s), t, GetRead(s.first, s.taken))
    case _ => if s.count == 0 then s else GetDone(s)
  }

  lemma GetGoesOn(s: State, t: nat, k: nat, fails: bool)
    requires Ready(s, t) && k <= 5 && (s.count == 0 ==> k == 0 || k == 5)
    ensures Next(GetAt(s, t, k), t, Go(fails)) == GetAt(s, t, StepFrom(s.count == 0, k, fails))
  {
    if k == 4 {
      GetClaims(s, t, fails);
    } else if k == 1 {
      assert s.threads[t := GetRead(s.first, s.taken)][t := Idle] == s.threads;
    } else if k == 5 {
      assert s.threads[t := GetLoad][t := Idle] == s.threads;
    }
  }

  lemma GetClaims(s: State, t: nat, fails: bool)
    requires Ready(s, t) && s.count > 0
    ensures Next(GetAt(s, t, 4), t, Go(fails)) == GetAt(s, t, StepFrom(false, 4, fails))
  {
    DecExact(s.count);
  }

  lemma {:induction false} GetRuns(s: State, t: nat, k: nat, fails: seq<bool>)
    requires Ready(s, t) && k <= 5 && (s.count == 0 ==> k == 0 || k == 5)
    ensures s.count == 0 ==> StepsFrom(true, k, fails) == 0 || StepsFrom(true, k, fails) == 5
    ensures Run(GetAt(s, t, k), Gos(t, fails)) == GetAt(s, t, StepsFrom(s.count == 0, k, fails))
    decreases |fails|
  {
    if fails != [] {
      var g := Gos(t, fails);
      assert g[0] == (t, Go(fails[0])) && g[1..] == Gos(t, fails[1..]);
      GetGoesOn(s, t, k, fails[0]);
      GetRuns(s, t, StepFrom(s.count == 0, k, fails[0]), fails[1..]);
    }
  }

  /**
   A get with no other thread in between, from any reachable state: however its stores fail, it ends; refused
   exactly when the count is 0, and otherwise with the oldest ticket answered, rightly so if its item has landed
   and FIFO has not been lost.
  */
  lemma GetAlone(s: State, t: nat, fails: seq<bool>)
    requires Recorded(s) && t < |s.threads| && s.threads[t].Idle? && |fails| >= 5 + 2 * Failures(fails)
    ensures var r, slot := Run(s, [(t, CallGet)] + Gos(t, fails)), s.taken % s.size;
            if s.count == 0 then r == s
            else
              && r.taken == s.taken + 1 && r.count == s.count - 1 && r.threads == s.threads
              && r.returned == s.returned[s.taken := s.items[slot]]
              && r.sources == s.sources[s.taken := s.stored[slot]]
              && (Fifo(s) && Landed(s, s.taken) ==> r.returned[s.taken] == s.accepted[s.taken])
              && r.first == Advance(s.first, s.size) && r.last == s.last && r.size == s.size
              && r.items == s.items && r.stored == s.stored && r.accepted == s.accepted
  {
    RecordedIsReady(s, t);
    RunSplit(s, [(t, CallGet)], Gos(t, fails));
    RunOne(s, t, CallGet);
    GetRuns(s, t, 5, fails);
    StepsEnd(s.count == 0, 5, fails);
    if Fifo(s) && Landed(s, s.taken) {
      assert Unread(s, s.taken);
    }
  }

  // ---- Giving up ----

  /** Whatever the other threads do: a put gives up exactly at a load that finds the ring full. */
  lemma PutGivesUpExactly(s: State, t: nat, a: Act)
    requires Counted(s) && t < |s.threads| && InPut(s.threads[t])
    ensures var r := Next(s, t, a);
            r.threads[t].Idle? && !s.threads[t].PutWrite? <==>
              a.Go? && s.threads[t].PutLoad? && |s.accepted| + Reserved(s) == s.taken + Claimed(s) + s.size
    ensures Next(s, t, a).threads[t].Idle? && !s.threads[t].PutWrite? ==> Next(s, t, a).accepted == s.accepted
  {
  }

  /** And a get exactly at one that finds it empty. */
  lemma GetGivesUpExactly(s: State, t: nat, a: Act)
    requires Counted(s) && t < |s.threads| && !InPut(s.threads[t]) && !s.threads[t].Idle?
    ensures var r := Next(s, t, a);
            r.threads[t].Idle? && !s.threads[t].GetRead? <==>
              a.Go? && s.threads[t].GetLoad? && |s.accepted| + Reserved(s) == s.taken + Claimed(s)
    ensures Next(s, t, a).threads[t].Idle? && !s.threads[t].GetRead? ==> Next(s, t, a).taken == s.taken
  {
  }
}
