/**
 Whole runs of the interrupt manager: any series of adds, front adds and removes on any interrupts, raised in
 between, against the closed form of IrqChain.dfy.
*/
module IrqRun {
  import opened Common
  import opened IrqChain
  import opened IrqManager

  /** One call on the manager, or an interrupt. Drop removes the handle that the k-th add returned. */
  datatype Call = Add(irq: nat, target: Target, front: bool) | Drop(irq: nat, k: nat) | Interrupt(irq: nat)

  /** What the handles given out so far call, oldest handle first. */
  function Given(calls: seq<Call>): seq<Target> {
    if calls == [] then []
    else
      var c := calls[|calls| - 1];
      Given(calls[..|calls| - 1]) + if c.Add? then [c.target] else []
  }

  /** Callers name interrupts that exist, and only handles they have been given. */
  predicate Proper(calls: seq<Call>, vectors: nat) {
    calls == []
    || (var before, c := calls[..|calls| - 1], calls[|calls| - 1];
        Proper(before, vectors) && c.irq < vectors && (c.Drop? ==> c.k < |Given(before)|))
  }

  lemma ProperLast(calls: seq<Call>, c: Call, vectors: nat)
    requires Proper(calls + [c], vectors)
    ensures Proper(calls, vectors) && c.irq < vectors && (c.Drop? ==> c.k < |Given(calls)|)
  {
    assert (calls + [c])[..|calls|] == calls && (calls + [c])[|calls|] == c;
  }

  /** What a call says about an interrupt; an add returns the handle with the next number. */
  function Says(c: Call, irq: nat, next: nat): seq<Op<int>> {
    if c.irq != irq then []
    else match c
      case Add(_, _, front) => if front then [Prepend(next)] else [Append(next)]
      case Drop(_, k) => [Remove(k)]
      case Interrupt(_) => []
  }

  /** What the calls say about one interrupt, with handles by number. */
  function History(calls: seq<Call>, irq: nat): seq<Op<int>> {
    if calls == [] then []
    else
      var before := calls[..|calls| - 1];
      History(before, irq) + Says(calls[|calls| - 1], irq, |Given(before)|)
  }

  /** The number of the original vector, whose function object no caller holds. */
  const ORIGINAL := -1

  function Picks(ts: seq<Target>, ids: seq<int>): (r: seq<Target>)
    requires Below(ids, |ts|)
    ensures |r| == |ids| && forall i | 0 <= i < |ids| :: r[i] == ts[ids[i]]
  {
    if ids == [] then [] else [ts[ids[0]]] + Picks(ts, ids[1..])
  }

  /** Handles are numbers below the count of handles given, */
  lemma {:induction false} HistoryBelow(calls: seq<Call>, vectors: nat, irq: nat)
    requires Proper(calls, vectors)
    ensures forall i | 0 <= i < |History(calls, irq)| :: 0 <= History(calls, irq)[i].h < |Given(calls)|
  {
    if calls != [] {
      HistoryBelow(calls[..|calls| - 1], vectors, irq);
    }
  }

  /** each added once. */
  lemma {:induction false} HistoryOwn(calls: seq<Call>, vectors: nat, irq: nat)
    requires Proper(calls, vectors)
    ensures OwnHandles(ORIGINAL, History(calls, irq))
  {
    if calls != [] {
      var before := calls[..|calls| - 1];
      HistoryBelow(before, vectors, irq);
      HistoryOwn(before, vectors, irq);
      var ops, says := History(before, irq), Says(calls[|calls| - 1], irq, |Given(before)|);
      if says == [] {
        assert ops + says == ops;
      } else {
        OwnGrows(ops, says[0], |Given(before)|);
        assert says == [says[0]];
      }
    }
  }

  lemma OwnGrows(ops: seq<Op<int>>, op: Op<int>, n: nat)
    requires OwnHandles(ORIGINAL, ops) && (forall i | 0 <= i < |ops| :: 0 <= ops[i].h < n)
    requires op.h >= 0 && (op.Remove? || op.h == n)
    ensures OwnHandles(ORIGINAL, ops + [op])
  {
    forall i, j | 0 <= i < j < |ops + [op]| && Adds((ops + [op])[i], (ops + [op])[i].h)
      ensures !Adds((ops + [op])[j], (ops + [op])[i].h)
    {
      assert (ops + [op])[i] == ops[i];
      if j < |ops| {
        assert (ops + [op])[j] == ops[j];
      }
    }
  }

  predicate Below(ids: seq<int>, n: nat) { forall i | 0 <= i < |ids| :: 0 <= ids[i] < n }

  lemma LiveInRange(calls: seq<Call>, vectors: nat, irq: nat)
    requires Proper(calls, vectors)
    ensures Below(Fronts(History(calls, irq)), |Given(calls)|) && Below(Backs(History(calls, irq)), |Given(calls)|)
  {
    var ops := History(calls, irq);
    HistoryBelow(calls, vectors, irq);
    forall h | h in Fronts(ops) || h in Backs(ops) ensures 0 <= h < |Given(calls)| {
      LiveWereAdded(ops, h);
      var i :| 0 <= i < |ops| && Adds(ops[i], h);
    }
    forall i | 0 <= i < |Fronts(ops)| ensures 0 <= Fronts(ops)[i] < |Given(calls)| {
      assert Fronts(ops)[i] in Fronts(ops);
    }
    forall i | 0 <= i < |Backs(ops)| ensures 0 <= Backs(ops)[i] < |Given(calls)| {
      assert Backs(ops)[i] in Backs(ops);
    }
  }

  /** What an interrupt must call: live front adds, newest first, the original vector, live adds, oldest first. */
  function Expected(calls: seq<Call>, vectors: seq<nat>, irq: nat): seq<Target>
    requires Proper(calls, |vectors|) && irq < |vectors|
  {
    LiveInRange(calls, |vectors|, irq);
    var ops := History(calls, irq);
    Picks(Given(calls), Fronts(ops)) + [Static(vectors[irq])] + Picks(Given(calls), Backs(ops))
  }

  /** What each call of a series must call, which is nothing unless it is an interrupt. */
  function Logs(calls: seq<Call>, vectors: seq<nat>): seq<seq<Target>>
    requires Proper(calls, |vectors|)
  {
    if calls == [] then []
    else
      var before, c := calls[..|calls| - 1], calls[|calls| - 1];
      Logs(before, vectors) + [if c.Interrupt? then Calls(Expected(before, vectors, c.irq)) else []]
  }

  lemma LogsStep(calls: seq<Call>, c: Call, vectors: seq<nat>)
    requires Proper(calls + [c], |vectors|)
    ensures Proper(calls, |vectors|) && (c.Interrupt? ==> c.irq < |vectors|)
    ensures Logs(calls + [c], vectors)
         == Logs(calls, vectors) + [if c.Interrupt? then Calls(Expected(calls, vectors, c.irq)) else []]
  {
    assert (calls + [c])[..|calls|] == calls && (calls + [c])[|calls|] == c;
  }

  /** What the i-th call calls: nothing, or each expected target that is not NULL once, in its place. */
  ghost predicate Reply(log: seq<Target>, calls: seq<Call>, i: nat, vectors: seq<nat>)
    requires i < |calls|
  {
    if !calls[i].Interrupt? then log == []
    else
      && Proper(calls[..i], |vectors|) && calls[i].irq < |vectors|
      && (var ts := Expected(calls[..i], vectors, calls[i].irq);
          CalledIn(log, ts) && (Sound(ts) ==> log == ts))
  }

  lemma {:induction false} LogsReply(calls: seq<Call>, vectors: seq<nat>)
    requires Proper(calls, |vectors|)
    ensures |Logs(calls, vectors)| == |calls|
    ensures forall i | 0 <= i < |calls| :: Reply(Logs(calls, vectors)[i], calls, i, vectors)
    decreases |calls|
  {
    if calls != [] {
      var before, c := calls[..|calls| - 1], calls[|calls| - 1];
      LogsReply(before, vectors);
      if c.Interrupt? {
        CallsAre(Expected(before, vectors, c.irq));
      }
      forall i | 0 <= i < |calls| ensures Reply(Logs(calls, vectors)[i], calls, i, vectors) {
        if i < |before| {
          assert before[..i] == calls[..i] && Reply(Logs(before, vectors)[i], before, i, vectors);
        }
      }
    }
  }

  // ---- The manager follows its history ----

  /** The function objects are those with these numbers; who is not given out stands for the original vector. */
  predicate Named(entries: seq<FunctionPointer>, ids: seq<int>, handles: seq<FunctionPointer>, vector: nat) {
    && |entries| == |ids|
    && forall i | 0 <= i < |ids| ::
         if ids[i] == ORIGINAL then entries[i] !in handles && entries[i].target == Static(vector)
         else 0 <= ids[i] < |handles| && entries[i] == handles[ids[i]]
  }

  /** A direct vector is the original one, and then no handle is live. */
  predicate Lines(entries: seq<FunctionPointer>, direct: Vector, ids: seq<int>, handles: seq<FunctionPointer>,
                  vector: nat)
  {
    match direct
    case Direct(f) => ids == [ORIGINAL] && f == vector
    case Helper => Named(entries, ids, handles, vector)
  }

  lemma {:induction false} NamedWithout(entries: seq<FunctionPointer>, ids: seq<int>, handles: seq<FunctionPointer>,
                                        vector: nat, k: nat)
    requires Named(entries, ids, handles, vector) && Distinct(handles) && k < |handles|
    ensures Named(Without(entries, handles[k]), Without(ids, k), handles, vector)
    ensures handles[k] in entries <==> k in ids
  {
    if ids != [] {
      NamedWithout(entries[1..], ids[1..], handles, vector, k);
      assert entries == [entries[0]] + entries[1..] && ids == [ids[0]] + ids[1..];
      assert handles[k] in entries <==> entries[0] == handles[k] || handles[k] in entries[1..];
      assert entries[0] == handles[k] <==> ids[0] == k;
    }
  }

  /** Every interrupt is in the state its history calls for. */
  ghost predicate Follows(m: InterruptManager, vectors: seq<nat>, calls: seq<Call>, handles: seq<FunctionPointer>)
    requires m.Valid()
    reads m, m.owner.Keys
  {
    && |m.chains| == |vectors| && Proper(calls, |vectors|)
    && HandlesOf(calls, handles)
    && forall irq | 0 <= irq < |vectors| ::
         LineOf(m.Entries(irq), m.vectors[irq], calls, irq, handles, vectors[irq])
  }

  /** The numbers of an interrupt's handlers, in the order in which they are called. */
  function Ids(calls: seq<Call>, irq: nat): seq<int> { ApplyAll([ORIGINAL], History(calls, irq)) }

  lemma GivenStep(calls: seq<Call>, c: Call)
    ensures Given(calls + [c]) == Given(calls) + if c.Add? then [c.target] else []
  {
    assert (calls + [c])[..|calls|] == calls && (calls + [c])[|calls|] == c;
  }

  lemma IdsStep(calls: seq<Call>, c: Call, irq: nat)
    ensures c.irq != irq || c.Interrupt? ==> Ids(calls + [c], irq) == Ids(calls, irq)
    ensures c.irq == irq && c.Add? ==>
              Ids(calls + [c], irq) == if c.front then [|Given(calls)|] + Ids(calls, irq)
                                       else Ids(calls, irq) + [|Given(calls)|]
    ensures c.irq == irq && c.Drop? ==> Ids(calls + [c], irq) == Without(Ids(calls, irq), c.k)
  {
    assert (calls + [c])[..|calls|] == calls && (calls + [c])[|calls|] == c;
    var ops, says := History(calls, irq), Says(c, irq, |Given(calls)|);
    assert History(calls + [c], irq) == ops + says;
    if says == [] {
      assert ops + says == ops;
    } else {
      assert (ops + says)[..|ops + says| - 1] == ops;
    }
  }

  /** The original vector is called in every state of every run. */
  lemma OriginalStays(calls: seq<Call>, vectors: nat, irq: nat)
    requires Proper(calls, vectors)
    ensures Ids(calls, irq) == Fronts(History(calls, irq)) + [ORIGINAL] + Backs(History(calls, irq))
    ensures ORIGINAL in Ids(calls, irq)
  {
    HistoryOwn(calls, vectors, irq);
    SeriesInClosedForm(ORIGINAL, History(calls, irq));
    assert Ids(calls, irq)[|Fronts(History(calls, irq))|] == ORIGINAL;
  }

  lemma LinesGrow(entries: seq<FunctionPointer>, direct: Vector, ids: seq<int>, handles: seq<FunctionPointer>,
                  vector: nat, pf: FunctionPointer)
    requires Lines(entries, direct, ids, handles, vector) && pf !in entries
    ensures Lines(entries, direct, ids, handles + [pf], vector)
  {
  }

  /** An add to a chain. */
  lemma LinesAdd(was: seq<FunctionPointer>, ids: seq<int>, handles: seq<FunctionPointer>, vector: nat,
                 pf: FunctionPointer, front: bool)
    requires Lines(was, Helper, ids, handles, vector) && pf !in was
    ensures Lines(if front then [pf] + was else was + [pf], Helper,
                  if front then [|handles|] + ids else ids + [|handles|], handles + [pf], vector)
  {
    LinesGrow(was, Helper, ids, handles, vector, pf);
    var one, given := [|handles|], handles + [pf];
    assert Named([pf], one, given, vector);
    if front {
      NamedConcat([pf], was, one, ids, given, vector);
    } else {
      NamedConcat(was, [pf], ids, one, given, vector);
    }
  }

  lemma NamedConcat(a: seq<FunctionPointer>, b: seq<FunctionPointer>, ids: seq<int>, more: seq<int>,
                    handles: seq<FunctionPointer>, vector: nat)
    requires Named(a, ids, handles, vector) && Named(b, more, handles, vector)
    ensures Named(a + b, ids + more, handles, vector)
  {
  }

  /** An add to a direct vector, which makes a new function object o stand for it. */
  lemma LinesChain(ids: seq<int>, handles: seq<FunctionPointer>, vector: nat,
                   pf: FunctionPointer, o: FunctionPointer, front: bool)
    requires Lines([], Direct(vector), ids, handles, vector)
    requires o != pf && o !in handles && o.target == Static(vector)
    ensures Lines(if front then [pf, o] else [o, pf], Helper,
                  if front then [|handles|] + ids else ids + [|handles|], handles + [pf], vector)
  {
  }

  /** A remove, after which a vector is direct again only if the object left is the one that stands for it. */
  lemma LinesDrop(was: seq<FunctionPointer>, now: seq<FunctionPointer>, direct: Vector, ids: seq<int>,
                  handles: seq<FunctionPointer>, vector: nat, k: nat)
    requires Lines(was, Helper, ids, handles, vector) && Distinct(handles) && k < |handles|
    requires ORIGINAL in Without(ids, k)
    requires var left := Without(was, handles[k]);
             if direct.Helper? then now == left
             else |left| == 1 && direct == Direct(left[0].GetFunction()) && left[0].GetFunction() != 0
    ensures Lines(now, direct, Without(ids, k), handles, vector)
  {
    NamedWithout(was, ids, handles, vector, k);
  }

  /** What is called, by value: handlers that were given out, */
  lemma NamedCall(entries: seq<FunctionPointer>, ids: seq<int>, handles: seq<FunctionPointer>, vector: nat)
    requires Named(entries, ids, handles, vector) && Below(ids, |handles|)
    ensures Targets(entries) == Picks(Targets(handles), ids)
  {
  }

  lemma NamedSplit(entries: seq<FunctionPointer>, front: seq<int>, back: seq<int>, handles: seq<FunctionPointer>,
                   vector: nat)
    requires Named(entries, front + [ORIGINAL] + back, handles, vector)
    ensures |entries| == |front| + 1 + |back| && entries[|front|].target == Static(vector)
    ensures Named(entries[..|front|], front, handles, vector)
    ensures Named(entries[|front| + 1..], back, handles, vector)
  {
    var ids, n := front + [ORIGINAL] + back, |front|;
    assert ids[..n] == front && ids[n] == ORIGINAL && ids[n + 1..] == back;
  }

  lemma ChainCall(entries: seq<FunctionPointer>, front: seq<int>, back: seq<int>, handles: seq<FunctionPointer>,
                  vector: nat)
    requires Named(entries, front + [ORIGINAL] + back, handles, vector)
    requires Below(front, |handles|) && Below(back, |handles|)
    ensures Targets(entries) == Picks(Targets(handles), front) + [Static(vector)] + Picks(Targets(handles), back)
  {
    NamedSplit(entries, front, back, handles, vector);
    NamedCall(entries[..|front|], front, handles, vector);
    NamedCall(entries[|front| + 1..], back, handles, vector);
    ThreeParts(entries, |front|);
  }

  lemma ThreeParts(entries: seq<FunctionPointer>, n: nat)
    requires n < |entries|
    ensures Targets(entries) == Targets(entries[..n]) + [entries[n].target] + Targets(entries[n + 1..])
  {
    var rest := entries[n..];
    assert entries == entries[..n] + rest && rest[1..] == entries[n + 1..];
    TargetsConcat(entries[..n], rest);
    assert Targets(rest) == [rest[0].target] + Targets(rest[1..]);
    Associates(Targets(entries[..n]), [rest[0].target], Targets(rest[1..]));
  }

  /** A handle added and not removed is in the chain. */
  lemma LiveInChain(entries: seq<FunctionPointer>, front: seq<int>, back: seq<int>, handles: seq<FunctionPointer>,
                    vector: nat, k: nat)
    requires Named(entries, front + [ORIGINAL] + back, handles, vector) && (k in front || k in back)
    ensures k < |handles| && handles[k] in entries
  {
    var ids := front + [ORIGINAL] + back;
    assert k in ids;
    var i :| 0 <= i < |ids| && ids[i] == k;
    assert entries[i] == handles[k];
  }

  /** and the original vector between them. */
  lemma LinesCall(entries: seq<FunctionPointer>, direct: Vector, front: seq<int>, back: seq<int>,
                  handles: seq<FunctionPointer>, vector: nat)
    requires Lines(entries, direct, front + [ORIGINAL] + back, handles, vector)
    requires Below(front, |handles|) && Below(back, |handles|)
    ensures Called(entries, direct)
         == Picks(Targets(handles), front) + [Static(vector)] + Picks(Targets(handles), back)
  {
    if direct.Direct? {
      assert |front + [ORIGINAL] + back| == 1;
      assert front == [] && back == [];
    } else {
      ChainCall(entries, front, back, handles, vector);
    }
  }

  function Called(entries: seq<FunctionPointer>, direct: Vector): seq<Target> {
    if direct.Direct? then [Static(direct.f)] else Targets(entries)
  }

  // ---- The run ----

  predicate LineOf(entries: seq<FunctionPointer>, direct: Vector, calls: seq<Call>, irq: nat,
                   handles: seq<FunctionPointer>, vector: nat)
  {
    Lines(entries, direct, Ids(calls, irq), handles, vector)
  }

  /** An interrupt about which a call says nothing. */
  lemma OtherAfterAdd(entries: seq<FunctionPointer>, direct: Vector, calls: seq<Call>, c: Call, irq: nat,
                      handles: seq<FunctionPointer>, vector: nat, pf: FunctionPointer)
    requires LineOf(entries, direct, calls, irq, handles, vector) && pf !in entries && c.irq != irq
    ensures LineOf(entries, direct, calls + [c], irq, handles + [pf], vector)
  {
    IdsStep(calls, c, irq);
    LinesGrow(entries, direct, Ids(calls, irq), handles, vector, pf);
  }

  predicate HandlesOf(calls: seq<Call>, handles: seq<FunctionPointer>) {
    Distinct(handles) && Targets(handles) == Given(calls)
  }

  lemma HandleAdded(calls: seq<Call>, c: Call, handles: seq<FunctionPointer>, pf: FunctionPointer)
    requires HandlesOf(calls, handles) && pf !in handles && c.Add? && pf.target == c.target
    ensures HandlesOf(calls + [c], handles + [pf])
  {
    GivenStep(calls, c);
    TargetsConcat(handles, [pf]);
  }

  lemma TwoAre(s: seq<FunctionPointer>)
    requires |s| == 2
    ensures s == [s[0], s[1]]
  {
  }

  /** The interrupt to which an add adds. */
  lemma LineAfterAdd(was: seq<FunctionPointer>, direct: Vector, entries: seq<FunctionPointer>, calls: seq<Call>,
                     c: Call, handles: seq<FunctionPointer>, vector: nat, pf: FunctionPointer)
    requires LineOf(was, direct, calls, c.irq, handles, vector) && c.Add? && HandlesOf(calls, handles)
    requires direct.Helper? ==> pf !in was && entries == if c.front then [pf] + was else was + [pf]
    requires direct.Direct? ==>
               && |entries| == 2 && entries[if c.front then 0 else 1] == pf
               && (var o := entries[if c.front then 1 else 0];
                   o != pf && o !in handles && o.target == Static(direct.f))
    ensures LineOf(entries, Helper, calls + [c], c.irq, handles + [pf], vector)
  {
    IdsStep(calls, c, c.irq);
    if direct.Helper? {
      LinesAdd(was, Ids(calls, c.irq), handles, vector, pf, c.front);
    } else {
      var o := entries[if c.front then 1 else 0];
      TwoAre(entries);
      LinesChain(Ids(calls, c.irq), handles, vector, pf, o, c.front);
    }
  }

  method AddOne(m: InterruptManager, c: Call, handles: seq<FunctionPointer>,
                ghost vectors: seq<nat>, ghost calls: seq<Call>)
    returns (given: seq<FunctionPointer>)
    requires m.Valid() && Follows(m, vectors, calls, handles) && Proper(calls + [c], |vectors|) && c.Add?
    modifies m, m.owner.Keys
    ensures m.Valid() && fresh(m.owner.Keys - old(m.owner.Keys)) && Follows(m, vectors, calls + [c], given)
  {
    ProperLast(calls, c, |vectors|);
    ghost var was, direct := m.Entries(c.irq), m.vectors[c.irq];
    var pf := m.AddCommon(c.target, c.irq, c.front);
    given := handles + [pf];
    HandleAdded(calls, c, handles, pf);
    LineAfterAdd(was, direct, m.Entries(c.irq), calls, c, handles, vectors[c.irq], pf);
    forall j | 0 <= j < |vectors| && j != c.irq
      ensures LineOf(m.Entries(j), m.vectors[j], calls + [c], j, given, vectors[j])
    {
      assert LineOf(old(m.Entries(j)), old(m.vectors[j]), calls, j, handles, vectors[j]);
      assert pf !in old(m.Entries(j));
      OtherAfterAdd(old(m.Entries(j)), old(m.vectors[j]), calls, c, j, handles, vectors[j], pf);
    }
  }

  method DropOne(m: InterruptManager, c: Call, handles: seq<FunctionPointer>,
                 ghost vectors: seq<nat>, ghost calls: seq<Call>)
    requires m.Valid() && Follows(m, vectors, calls, handles) && Proper(calls + [c], |vectors|) && c.Drop?
    modifies m`chains, m`vectors, m.owner.Keys
    ensures m.Valid() && fresh(m.owner.Keys - old(m.owner.Keys)) && Follows(m, vectors, calls + [c], handles)
  {
    ProperLast(calls, c, |vectors|);
    GivenStep(calls, c);
    ghost var was, direct := m.Entries(c.irq), m.vectors[c.irq];
    var ok := m.RemoveHandler(handles[c.k], c.irq);
    LineAfterDrop(was, direct, m.Entries(c.irq), m.vectors[c.irq], calls, c, handles, vectors, ok);
    forall j | 0 <= j < |vectors| && j != c.irq
      ensures LineOf(m.Entries(j), m.vectors[j], calls + [c], j, handles, vectors[j])
    {
      IdsStep(calls, c, j);
    }
  }

  /** The interrupt from which a remove removes, if the handle is in its chain. */
  lemma LineAfterDrop(was: seq<FunctionPointer>, direct: Vector, entries: seq<FunctionPointer>, after: Vector,
                      calls: seq<Call>, c: Call, handles: seq<FunctionPointer>, vectors: seq<nat>, ok: bool)
    requires Proper(calls + [c], |vectors|) && c.Drop? && c.irq < |vectors| && c.k < |handles|
    requires LineOf(was, direct, calls, c.irq, handles, vectors[c.irq]) && HandlesOf(calls, handles)
    requires ok == (direct.Helper? && handles[c.k] in was)
    requires !ok ==> entries == was && after == direct
    requires ok ==> var left := Without(was, handles[c.k]);
                    if after.Helper? then entries == left
                    else |left| == 1 && after == Direct(left[0].GetFunction()) && left[0].GetFunction() != 0
    ensures LineOf(entries, after, calls + [c], c.irq, handles, vectors[c.irq])
  {
    IdsStep(calls, c, c.irq);
    var ids := Ids(calls, c.irq);
    if ok {
      OriginalStays(calls + [c], |vectors|, c.irq);
      LinesDrop(was, entries, after, ids, handles, vectors[c.irq], c.k);
    } else {
      if direct.Helper? {
        NamedWithout(was, ids, handles, vectors[c.irq], c.k);
      }
      WithoutAbsent(ids, c.k);
    }
  }

  lemma HandlersExpected(m: InterruptManager, vectors: seq<nat>, calls: seq<Call>, handles: seq<FunctionPointer>,
                         irq: nat)
    requires m.Valid() && Follows(m, vectors, calls, handles) && irq < |vectors|
    ensures m.Handlers(irq) == Expected(calls, vectors, irq)
  {
    OriginalStays(calls, |vectors|, irq);
    LiveInRange(calls, |vectors|, irq);
    LinesCall(m.Entries(irq), m.vectors[irq], Fronts(History(calls, irq)), Backs(History(calls, irq)), handles,
              vectors[irq]);
  }

  lemma InterruptFollows(m: InterruptManager, c: Call, handles: seq<FunctionPointer>, vectors: seq<nat>,
                         calls: seq<Call>)
    requires m.Valid() && Follows(m, vectors, calls, handles) && Proper(calls + [c], |vectors|) && c.Interrupt?
    ensures Follows(m, vectors, calls + [c], handles)
  {
    GivenStep(calls, c);
    forall j | 0 <= j < |vectors|
      ensures LineOf(m.Entries(j), m.vectors[j], calls + [c], j, handles, vectors[j])
    {
      IdsStep(calls, c, j);
    }
  }

  method RaiseOne(m: InterruptManager, c: Call, handles: seq<FunctionPointer>,
                  ghost vectors: seq<nat>, ghost calls: seq<Call>)
    returns (log: seq<Target>)
    requires m.Valid() && Follows(m, vectors, calls, handles) && Proper(calls + [c], |vectors|) && c.Interrupt?
    requires Proper(calls, |vectors|) && c.irq < |vectors|
    ensures m.Valid() && fresh(m.owner.Keys - old(m.owner.Keys)) && Follows(m, vectors, calls + [c], handles)
    ensures log == Answer(calls, c, vectors)
  {
    log := m.Raise(c.irq);
    HandlersExpected(m, vectors, calls, handles, c.irq);
    InterruptFollows(m, c, handles, vectors, calls);
  }

  /** What the call c must call. */
  function Answer(calls: seq<Call>, c: Call, vectors: seq<nat>): seq<Target>
    requires Proper(calls, |vectors|) && c.irq < |vectors|
  {
    if c.Interrupt? then Calls(Expected(calls, vectors, c.irq)) else []
  }

  /** One call, on a manager that follows its history. */
  method Step(m: InterruptManager, c: Call, handles: seq<FunctionPointer>,
              ghost vectors: seq<nat>, ghost calls: seq<Call>)
    returns (given: seq<FunctionPointer>, log: seq<Target>)
    requires m.Valid() && Follows(m, vectors, calls, handles) && Proper(calls + [c], |vectors|)
    requires Proper(calls, |vectors|) && c.irq < |vectors|
    modifies m, m.owner.Keys
    ensures m.Valid() && fresh(m.owner.Keys - old(m.owner.Keys)) && Follows(m, vectors, calls + [c], given)
    ensures log == Answer(calls, c, vectors)
  {
    given, log := handles, [];
    if c.Add? {
      given := AddOne(m, c, handles, vectors, calls);
    } else if c.Drop? {
      DropOne(m, c, handles, vectors, calls);
    } else {
      log := RaiseOne(m, c, handles, vectors, calls);
    }
  }

  /** The handle has been added to the interrupt and not been removed. */
  predicate Live(calls: seq<Call>, irq: nat, k: nat) {
    k in Fronts(History(calls, irq)) || k in Backs(History(calls, irq))
  }

  /** A handle that was given out and not removed is in the chain of its interrupt, whatever happened since. */
  lemma LiveStays(m: InterruptManager, vectors: seq<nat>, calls: seq<Call>, handles: seq<FunctionPointer>,
                  irq: nat, k: nat)
    requires m.Valid() && Follows(m, vectors, calls, handles) && irq < |vectors|
    requires Live(calls, irq, k)
    ensures k < |handles| && handles[k] in m.Entries(irq)
  {
    var front, back := Fronts(History(calls, irq)), Backs(History(calls, irq));
    OriginalStays(calls, |vectors|, irq);
    assert |front + [ORIGINAL] + back| > 1;
    LiveInChain(m.Entries(irq), front, back, handles, vectors[irq], k);
  }

  lemma StartFollows(m: InterruptManager, vectors: seq<nat>)
    requires m.Valid() && |m.chains| == |vectors|
    requires forall irq | 0 <= irq < |vectors| :: m.vectors[irq] == Direct(vectors[irq])
    ensures Follows(m, vectors, [], [])
  {
    assert forall irq: nat :: Ids([], irq) == [ORIGINAL];
  }

  lemma EndExpected(m: InterruptManager, vectors: seq<nat>, calls: seq<Call>, handles: seq<FunctionPointer>)
    requires m.Valid() && Follows(m, vectors, calls, handles)
    ensures forall irq | 0 <= irq < |vectors| :: m.Handlers(irq) == Expected(calls, vectors, irq)
    ensures forall irq, k: nat | 0 <= irq < |vectors| && Live(calls, irq, k) ::
              k < |handles| && handles[k] in m.Entries(irq)
  {
    forall irq | 0 <= irq < |vectors| ensures m.Handlers(irq) == Expected(calls, vectors, irq) {
      HandlersExpected(m, vectors, calls, handles, irq);
    }
    forall irq, k: nat | 0 <= irq < |vectors| && Live(calls, irq, k)
      ensures k < |handles| && handles[k] in m.Entries(irq)
    {
      LiveStays(m, vectors, calls, handles, irq, k);
    }
  }

  lemma LastCall(calls: seq<Call>)
    requires calls != []
    ensures calls[..|calls| - 1] + [calls[|calls| - 1]] == calls
  {
  }

  /** The calls one by one. */
  method Perform(m: InterruptManager, calls: seq<Call>, ghost vectors: seq<nat>)
    returns (handles: seq<FunctionPointer>, logs: seq<seq<Target>>)
    requires m.Valid() && Proper(calls, |vectors|) && |m.chains| == |vectors|
    requires forall irq | 0 <= irq < |vectors| :: m.vectors[irq] == Direct(vectors[irq])
    modifies m, m.owner.Keys
    ensures m.Valid() && fresh(m.owner.Keys - old(m.owner.Keys)) && Follows(m, vectors, calls, handles)
    ensures logs == Logs(calls, vectors)
  {
    if calls == [] {
      handles, logs := [], [];
      StartFollows(m, vectors);
    } else {
      var before, c, log := calls[..|calls| - 1], calls[|calls| - 1], [];
      LastCall(calls);
      handles, logs := Perform(m, before, vectors);
      ProperLast(before, c, |vectors|);
      handles, log := Step(m, c, handles, vectors, before);
      LogsStep(before, c, vectors);
      logs := logs + [log];
    }
  }

  /**
   Any series of calls on a manager that has taken over no interrupt yet. Every interrupt raised in between calls
   the live front adds, newest first, the original vector, and the live adds, oldest first; and every live handle
   is in its chain at the end.
  */
  method Serve(m: InterruptManager, calls: seq<Call>, ghost vectors: seq<nat>)
    returns (handles: seq<FunctionPointer>, logs: seq<seq<Target>>)
    requires m.Valid() && Proper(calls, |vectors|) && |m.chains| == |vectors|
    requires forall irq | 0 <= irq < |vectors| :: m.vectors[irq] == Direct(vectors[irq])
    modifies m, m.owner.Keys
    ensures m.Valid() && |m.chains| == |vectors| && Targets(handles) == Given(calls)
    ensures logs == Logs(calls, vectors) && |logs| == |calls|
    ensures forall i | 0 <= i < |calls| :: Reply(logs[i], calls, i, vectors)
    ensures forall irq | 0 <= irq < |vectors| :: m.Handlers(irq) == Expected(calls, vectors, irq)
    ensures forall irq, k: nat | 0 <= irq < |vectors| && Live(calls, irq, k) ::
              k < |handles| && handles[k] in m.Entries(irq)
  {
    handles, logs := Perform(m, calls, vectors);
    LogsReply(calls, vectors);
    EndExpected(m, vectors, calls, handles);
  }
}
