/**
 The two classes behind interrupt chaining, CallChain and InterruptManager of mbed/common, proved against
 the handler sequences of IrqChain.dfy.
*/
module IrqManager {
  import opened IrqChain

  const CHAIN_INITIAL_SIZE: nat := 4

  class CallChain {
    var chain: array<FunctionPointer?>
    var size: nat
    var elements: nat
    ghost var contents: seq<FunctionPointer>

    ghost predicate Valid()
      reads this, chain
    {
      && size == chain.Length && elements == |contents| <= size && Distinct(contents)
      && forall i | 0 <= i < elements :: chain[i] == contents[i]
    }

    constructor (n: nat)
      ensures Valid() && contents == [] && fresh(chain)
    {
      chain := new FunctionPointer?[n](_ => null);
      size, elements, contents := n, 0, [];
    }

    /** Room for one more: a full array is copied into one with four more places. */
    method CheckSize()
      requires Valid()
      modifies this`chain, this`size
      ensures Valid() && elements < size && (chain == old(chain) || fresh(chain))
    {
      if elements < size {
        return;
      }
      size := if size < 4 then 4 else size + 4;
      var bigger := new FunctionPointer?[size](_ => null);
      var i := 0;
      while i < elements
        invariant 0 <= i <= elements && forall j | 0 <= j < i :: bigger[j] == contents[j]
        modifies bigger
      {
        bigger[i] := chain[i];
        i := i + 1;
      }
      chain := bigger;
    }

    method CommonAdd(pf: FunctionPointer)
      requires Valid() && pf !in contents
      modifies this, chain
      ensures Valid() && contents == old(contents) + [pf] && (chain == old(chain) || fresh(chain))
    {
      CheckSize();
      chain[elements] := pf;
      elements := elements + 1;
      contents := contents + [pf];
    }

    method CommonAddFront(pf: FunctionPointer)
      requires Valid() && pf !in contents
      modifies this, chain
      ensures Valid() && contents == [pf] + old(contents) && (chain == old(chain) || fresh(chain))
    {
      CheckSize();
      var i := elements;
      while i > 0
        invariant 0 <= i <= elements < size == chain.Length
        invariant forall j | 0 <= j < i :: chain[j] == contents[j]
        invariant forall j | i < j <= elements :: chain[j] == contents[j - 1]
        modifies chain
      {
        chain[i] := chain[i - 1];
        i := i - 1;
      }
      chain[0] := pf;
      elements := elements + 1;
      contents := [pf] + contents;
    }

    method Find(f: FunctionPointer) returns (i: int)
      requires Valid()
      ensures if f in contents then 0 <= i < elements && contents[i] == f && f !in contents[..i] else i == -1
    {
      i := 0;
      while i < elements
        invariant 0 <= i <= elements && f !in contents[..i]
      {
        if f == chain[i] {
          return;
        }
        i := i + 1;
      }
      assert contents[..elements] == contents;
      i := -1;
    }

    method Remove(f: FunctionPointer) returns (ok: bool)
      requires Valid()
      modifies this`elements, this`contents, chain
      ensures Valid() && ok == (f in old(contents)) && contents == Without(old(contents), f)
    {
      var i := Find(f);
      if i == -1 {
        WithoutAbsent(contents, f);
        return false;
      }
      WithoutAt(contents, f, i);
      var j := i;
      while j < elements - 1
        invariant i <= j <= elements - 1
        invariant forall k | 0 <= k < i :: chain[k] == contents[k]
        invariant forall k | i <= k < j :: chain[k] == contents[k + 1]
        invariant forall k | j <= k < elements :: chain[k] == contents[k]
        modifies chain
      {
        assert chain[j + 1] == contents[j + 1];
        chain[j] := chain[j + 1];
        j := j + 1;
      }
      elements := elements - 1;
      ghost var was := contents;
      contents := was[..i] + was[i + 1..];
      assert forall k | 0 <= k < elements :: contents[k] == if k < i then was[k] else was[k + 1];
      ok := true;
    }

    method Call() returns (log: seq<Target>)
      requires Valid()
      ensures log == Calls(Targets(contents))
      ensures CalledIn(log, Targets(contents)) && (Sound(Targets(contents)) ==> log == Targets(contents))
    {
      log := [];
      var i := 0;
      ghost var ts := Targets(contents);
      while i < elements
        invariant 0 <= i <= elements && log == Calls(ts[..i])
      {
        assert ts[..i + 1] == ts[..i] + [ts[i]];
        CallsAppend(ts[..i], ts[i]);
        log := log + Effect(chain[i].target);
        i := i + 1;
      }
      assert ts[..i] == ts;
      CallsAre(ts);
    }
  }

  /** An interrupt vector: the manager's own entry point, or a handler to call directly. */
  datatype Vector = Helper | Direct(f: nat)

  /** The manager's chain pointers and the vector table. */
  class InterruptManager {
    var chains: seq<CallChain?>
    var vectors: seq<Vector>
    /** The chains in use and their arrays, and the interrupt each of them serves. */
    ghost var owner: map<object, nat>

    ghost predicate Serves(c: CallChain, i: nat)
      reads this, owner.Keys
    {
      c in owner && owner[c] == i && c.chain in owner && owner[c.chain] == i && c.Valid()
    }

    ghost predicate Valid()
      reads this, owner.Keys
    {
      && |chains| == |vectors| && this !in owner
      && (forall i | 0 <= i < |chains| :: vectors[i].Helper? <==> chains[i] != null)
      && (forall i | 0 <= i < |chains| && chains[i] != null :: Serves(chains[i], i))
    }

    /** What the interrupt calls: its vector, or all of its chain. */
    ghost function Handlers(irq: nat): seq<Target>
      requires Valid() && irq < |chains|
      reads this, owner.Keys
    {
      match vectors[irq]
      case Direct(f) => [Static(f)]
      case Helper => Targets(chains[irq].contents)
    }

    /** The function objects of an interrupt's chain; none while its vector is direct. */
    ghost function Entries(irq: nat): seq<FunctionPointer>
      requires Valid() && irq < |chains|
      reads this, owner.Keys
    {
      if chains[irq] == null then [] else chains[irq].contents
    }

    constructor (vectors: seq<Vector>)
      requires forall i | 0 <= i < |vectors| :: vectors[i].Direct?
      ensures Valid() && this.vectors == vectors && owner == map[]
    {
      chains := seq(|vectors|, _ => null);
      this.vectors := vectors;
      owner := map[];
    }

    /** irq_helper, or the hardware's call through a direct vector. */
    method Raise(irq: nat) returns (log: seq<Target>)
      requires Valid() && irq < |chains|
      ensures log == Calls(Handlers(irq))
      ensures CalledIn(log, Handlers(irq)) && (Sound(Handlers(irq)) ==> log == Handlers(irq))
    {
      CallsAre(Handlers(irq));
      match vectors[irq]
      case Direct(f) => {
        log := Effect(Static(f));
        assert Calls([Static(f)]) == Effect(Static(f)) + Calls([Static(f)][1..]);
      }
      case Helper => log := chains[irq].Call();
    }

    /** A chain with the old vector as its only handler. */
    method NewChain(vector: nat) returns (c: CallChain)
      ensures fresh(c) && fresh(c.chain) && c.Valid()
      ensures |c.contents| == 1 && fresh(c.contents[0]) && Stands(c.contents[0], vector)
    {
      c := new CallChain(CHAIN_INITIAL_SIZE);
      var pf := new FunctionPointer(Static(vector));
      c.CommonAdd(pf);
    }

    /** The function object that stands in the chain for the old vector. */
    predicate Stands(o: FunctionPointer, vector: nat) { o.target == Static(vector) }

    /** must_replace_vector: the first chained handler brings a chain that starts with the old vector. */
    method MustReplaceVector(irq: nat) returns (change: bool)
      requires Valid() && irq < |chains|
      modifies this
      ensures Valid() && fresh(owner.Keys - old(owner.Keys)) && |chains| == old(|chains|)
      ensures chains[irq] != null && change == (old(chains[irq]) == null)
      ensures forall j | 0 <= j < |chains| :: Handlers(j) == old(Handlers(j))
      ensures !change ==> Entries(irq) == old(Entries(irq))
      ensures change ==>
                |Entries(irq)| == 1 && fresh(Entries(irq)[0]) && Stands(Entries(irq)[0], old(vectors[irq].f))
      ensures forall j | 0 <= j < |chains| && j != irq ::
                chains[j] == old(chains[j]) && vectors[j] == old(vectors[j]) && Entries(j) == old(Entries(j))
    {
      if chains[irq] == null {
        var c := NewChain(vectors[irq].f);
        chains, vectors := chains[irq := c], vectors[irq := Helper];
        owner := owner[c := irq][c.chain := irq];
        return true;
      }
      return false;
    }

    /** add_common: the new function object is called first or last; the caller may later remove it by its handle. */
    method AddCommon(target: Target, irq: nat, front: bool) returns (pf: FunctionPointer)
      requires Valid() && irq < |chains|
      modifies this, owner.Keys
      ensures Valid() && fresh(owner.Keys - old(owner.Keys)) && |chains| == old(|chains|)
      ensures fresh(pf) && pf.target == target && chains[irq] != null
      ensures old(chains[irq]) != null ==>
                Entries(irq) == if front then [pf] + old(Entries(irq)) else old(Entries(irq)) + [pf]
      ensures old(chains[irq]) == null ==>
                && |Entries(irq)| == 2 && Entries(irq)[if front then 0 else 1] == pf
                && Stands(Entries(irq)[if front then 1 else 0], old(vectors[irq].f))
                && fresh(Entries(irq)[if front then 1 else 0])
      ensures Handlers(irq) == if front then [target] + old(Handlers(irq)) else old(Handlers(irq)) + [target]
      ensures forall j | 0 <= j < |chains| && j != irq ::
                chains[j] == old(chains[j]) && vectors[j] == old(vectors[j]) && Entries(j) == old(Entries(j))
    {
      var change := MustReplaceVector(irq);
      pf := new FunctionPointer(target);
      ghost var was := Entries(irq);
      AddTo(irq, pf, front);
      TargetsConcat([pf], was);
      TargetsConcat(was, [pf]);
    }

    method AddTo(irq: nat, pf: FunctionPointer, front: bool)
      requires Valid() && irq < |chains| && chains[irq] != null && pf !in Entries(irq)
      modifies this`owner, owner.Keys
      ensures Valid() && fresh(owner.Keys - old(owner.Keys))
      ensures Entries(irq) == if front then [pf] + old(Entries(irq)) else old(Entries(irq)) + [pf]
      ensures forall j | 0 <= j < |chains| && j != irq :: Entries(j) == old(Entries(j))
    {
      var c := chains[irq];
      if front {
        c.CommonAddFront(pf);
      } else {
        c.CommonAdd(pf);
      }
      owner := owner[c.chain := irq];
    }

    method RemoveFrom(handler: FunctionPointer, irq: nat) returns (ok: bool)
      requires Valid() && irq < |chains| && chains[irq] != null
      modifies owner.Keys
      ensures Valid() && ok == (handler in old(Entries(irq))) && Entries(irq) == Without(old(Entries(irq)), handler)
      ensures forall j | 0 <= j < |chains| && j != irq :: Entries(j) == old(Entries(j))
    {
      ok := chains[irq].Remove(handler);
    }

    /** If there is a single plain function left in the chain, the vector is switched to call it directly. */
    method Collapse(irq: nat)
      requires Valid() && irq < |chains| && chains[irq] != null
      modifies this`chains, this`vectors
      ensures Valid() && |chains| == old(|chains|)
      ensures forall j | 0 <= j < |chains| :: Handlers(j) == old(Handlers(j))
      ensures chains[irq] == null <==>
                |old(Entries(irq))| == 1 && old(Entries(irq))[0].target.Static? && old(Entries(irq))[0].target.f != 0
      ensures if chains[irq] == null then vectors[irq] == Direct(old(Entries(irq))[0].target.f)
              else Entries(irq) == old(Entries(irq))
      ensures forall j | 0 <= j < |chains| && j != irq ::
                chains[j] == old(chains[j]) && vectors[j] == old(vectors[j]) && Entries(j) == old(Entries(j))
    {
      var c := chains[irq];
      if c.elements == 1 && c.chain[0].GetFunction() != 0 {
        assert c.chain[0] == c.contents[0];
        vectors := vectors[irq := Direct(c.chain[0].GetFunction())];
        chains := chains[irq := null];
      }
    }

    /** remove_handler */
    method RemoveHandler(handler: FunctionPointer, irq: nat) returns (ok: bool)
      requires Valid() && irq < |chains|
      modifies this`chains, this`vectors, owner.Keys
      ensures Valid() && |chains| == old(|chains|) && ok == (handler in old(Entries(irq)))
      ensures Handlers(irq) == if ok then Targets(Without(old(Entries(irq)), handler)) else old(Handlers(irq))
      ensures !ok ==> chains[irq] == old(chains[irq]) && vectors[irq] == old(vectors[irq])
                      && Entries(irq) == old(Entries(irq))
      ensures ok ==> var left := Without(old(Entries(irq)), handler);
                     if chains[irq] != null then Entries(irq) == left
                     else |left| == 1 && vectors[irq] == Direct(left[0].GetFunction()) && left[0].GetFunction() != 0
      ensures forall j | 0 <= j < |chains| && j != irq ::
                chains[j] == old(chains[j]) && vectors[j] == old(vectors[j]) && Entries(j) == old(Entries(j))
    {
      if chains[irq] == null {
        return false;
      }
      ghost var was := Entries(irq);
      ok := RemoveFrom(handler, irq);
      if !ok {
        WithoutAbsent(was, handler);
        return;
      }
      Collapse(irq);
    }
  }
}
