/**
 Interrupt chaining: mbed/common/CallChain.cpp (a growing array of function objects) and
 mbed/common/InterruptManager.cpp (one chain per chained interrupt, none for an interrupt whose vector
 calls its only handler directly).
*/
module IrqChain {
  import opened Common

  /** What a function object calls: a plain function, or a member function of an object; 0 is NULL. */
  datatype Target = Static(f: nat) | Member(obj: nat, f: nat)

  /** FunctionPointer::call skips these. */
  predicate Null(t: Target) {
    match t
    case Static(f) => f == 0
    case Member(obj, _) => obj == 0
  }

  /** What FunctionPointer::call does. */
  function Effect(t: Target): seq<Target> {
    match t
    case Static(f) => if f != 0 then [t] else []
    case Member(obj, _) => if obj != 0 then [t] else []
  }

  class FunctionPointer {
    const target: Target

    constructor (target: Target)
      ensures this.target == target
    {
      this.target := target;
    }

    /** The plain function, or 0. */
    function GetFunction(): nat {
      if target.Static? then target.f else 0
    }
  }

  // ---- The handler sequence of one interrupt ----

  function Targets(hs: seq<FunctionPointer>): (ts: seq<Target>)
    ensures |ts| == |hs| && forall i | 0 <= i < |hs| :: ts[i] == hs[i].target
  {
    if hs == [] then [] else [hs[0].target] + Targets(hs[1..])
  }

  lemma TargetsConcat(a: seq<FunctionPointer>, b: seq<FunctionPointer>)
    ensures Targets(a + b) == Targets(a) + Targets(b)
  {
  }

  /** Everything a raised interrupt calls, in order. */
  function Calls(ts: seq<Target>): seq<Target> {
    if ts == [] then [] else Effect(ts[0]) + Calls(ts[1..])
  }

  lemma {:induction false} CallsAppend(a: seq<Target>, t: Target)
    ensures Calls(a + [t]) == Calls(a) + Effect(t)
  {
    if a == [] {
      assert [t][1..] == [] && Calls([]) == [];
    } else {
      assert (a + [t])[1..] == a[1..] + [t];
      CallsAppend(a[1..], t);
    }
  }

  function Callable(ts: seq<Target>): nat {
    if ts == [] then 0 else Callable(ts[..|ts| - 1]) + if Null(ts[|ts| - 1]) then 0 else 1
  }

  /** Each target that is not NULL has been called once, in its place; nothing else has. */
  predicate CalledIn(log: seq<Target>, ts: seq<Target>) {
    && |log| == Callable(ts)
    && forall i | 0 <= i < |ts| && !Null(ts[i]) :: Callable(ts[..i]) < |log| && log[Callable(ts[..i])] == ts[i]
  }

  /** No pointer in it is 0. */
  predicate Sound(ts: seq<Target>) {
    forall i | 0 <= i < |ts| :: if ts[i].Static? then ts[i].f != 0 else ts[i].obj != 0
  }

  lemma {:induction false} CallsCallable(ts: seq<Target>)
    ensures CalledIn(Calls(ts), ts)
    decreases |ts|
  {
    if ts != [] {
      var front, t := ts[..|ts| - 1], ts[|ts| - 1];
      CallsCallable(front);
      CallsAppend(front, t);
      assert front + [t] == ts;
      forall i | 0 <= i < |ts| && !Null(ts[i])
        ensures Callable(ts[..i]) < |Calls(ts)| && Calls(ts)[Callable(ts[..i])] == ts[i]
      {
        if i < |front| {
          assert front[..i] == ts[..i] && front[i] == ts[i];
        }
      }
    }
  }

  /** A call with no NULL among its targets calls them all, in order. */
  lemma AllCalled(log: seq<Target>, ts: seq<Target>)
    requires CalledIn(log, ts) && Sound(ts)
    ensures log == ts
  {
    forall i | 0 <= i <= |ts| ensures Callable(ts[..i]) == i {
      NoneNull(ts[..i]);
    }
    assert ts[..|ts|] == ts;
  }

  lemma CallsAre(ts: seq<Target>)
    ensures CalledIn(Calls(ts), ts) && (Sound(ts) ==> Calls(ts) == ts)
  {
    CallsCallable(ts);
    if Sound(ts) {
      AllCalled(Calls(ts), ts);
    }
  }

  lemma {:induction false} NoneNull(ts: seq<Target>)
    requires Sound(ts)
    ensures Callable(ts) == |ts|
    decreases |ts|
  {
    if ts != [] {
      NoneNull(ts[..|ts| - 1]);
    }
  }

  predicate Distinct<H(==)>(s: seq<H>) { forall i, j | 0 <= i < j < |s| :: s[i] != s[j] }

  function Without<H(==)>(s: seq<H>, h: H): seq<H> {
    if s == [] then [] else if s[0] == h then s[1..] else [s[0]] + Without(s[1..], h)
  }

  lemma {:induction false} WithoutAt<H>(s: seq<H>, h: H, i: nat)
    requires i < |s| && s[i] == h && h !in s[..i]
    ensures Without(s, h) == s[..i] + s[i + 1..]
  {
    if i > 0 {
      assert s[0] == s[..i][0] && s[1..][..i - 1] == s[..i][1..];
      WithoutAt(s[1..], h, i - 1);
    }
  }

  lemma {:induction false} WithoutAbsent<H>(s: seq<H>, h: H)
    requires h !in s
    ensures Without(s, h) == s
  {
    if s != [] {
      WithoutAbsent(s[1..], h);
    }
  }

  lemma {:induction false} WithoutConcat<H>(a: seq<H>, b: seq<H>, h: H)
    ensures h in a ==> Without(a + b, h) == Without(a, h) + b
    ensures h !in a ==> Without(a + b, h) == a + Without(b, h)
  {
    if a == [] {
      assert a + b == b;
    } else {
      assert (a + b)[0] == a[0] && (a + b)[1..] == a[1..] + b;
      if a[0] != h {
        WithoutConcat(a[1..], b, h);
        assert a == [a[0]] + a[1..];
        if h in a[1..] {
          Associates([a[0]], Without(a[1..], h), b);
        } else {
          Associates([a[0]], a[1..], Without(b, h));
        }
      }
    }
  }

  // ---- Any series of calls, in closed form ----

  datatype Op<H> = Append(h: H) | Prepend(h: H) | Remove(h: H)

  function Apply<H(==)>(s: seq<H>, op: Op<H>): seq<H> {
    match op
    case Append(h) => s + [h]
    case Prepend(h) => [h] + s
    case Remove(h) => Without(s, h)
  }

  function ApplyAll<H(==)>(s: seq<H>, ops: seq<Op<H>>): seq<H> {
    if ops == [] then s else Apply(ApplyAll(s, ops[..|ops| - 1]), ops[|ops| - 1])
  }

  /** The handlers prepended and not removed again, newest first. */
  function Fronts<H(==)>(ops: seq<Op<H>>): seq<H> {
    if ops == [] then []
    else
      var before := Fronts(ops[..|ops| - 1]);
      match ops[|ops| - 1]
      case Append(_) => before
      case Prepend(h) => [h] + before
      case Remove(h) => Without(before, h)
  }

  /** The handlers appended and not removed again, oldest first. */
  function Backs<H(==)>(ops: seq<Op<H>>): seq<H> {
    if ops == [] then []
    else
      var before := Backs(ops[..|ops| - 1]);
      match ops[|ops| - 1]
      case Append(h) => before + [h]
      case Prepend(_) => before
      case Remove(h) => Without(before, h)
  }

  predicate Adds<H(==)>(op: Op<H>, h: H) { (op.Append? || op.Prepend?) && op.h == h }

  /** Every add makes a new handle, and nobody holds the handle of the original vector. */
  predicate OwnHandles<H(==)>(original: H, ops: seq<Op<H>>) {
    && (forall i, j | 0 <= i < j < |ops| && Adds(ops[i], ops[i].h) :: !Adds(ops[j], ops[i].h))
    && (forall i | 0 <= i < |ops| :: ops[i].h != original)
  }

  predicate Added<H(==)>(ops: seq<Op<H>>, h: H) { exists i | 0 <= i < |ops| :: Adds(ops[i], h) }

  lemma {:induction false} LiveWereAdded<H>(ops: seq<Op<H>>, h: H)
    ensures h in Fronts(ops) || h in Backs(ops) ==> Added(ops, h)
  {
    if ops != [] {
      var before, op := ops[..|ops| - 1], ops[|ops| - 1];
      LiveWereAdded(before, h);
      WithoutMembers(Fronts(before), op.h, h);
      WithoutMembers(Backs(before), op.h, h);
      assert forall i | 0 <= i < |before| :: before[i] == ops[i];
      if !op.Remove? && op.h == h {
        assert Adds(ops[|ops| - 1], h);
      }
    }
  }

  lemma {:induction false} WithoutMembers<H>(s: seq<H>, h: H, x: H)
    ensures x in Without(s, h) ==> x in s
  {
    if s != [] && s[0] != h {
      WithoutMembers(s[1..], h, x);
    }
  }

  /** A handle is on one side only. */
  lemma {:induction false} SidesApart<H>(original: H, ops: seq<Op<H>>, h: H)
    requires OwnHandles(original, ops)
    ensures !(h in Fronts(ops) && h in Backs(ops))
  {
    if ops != [] {
      var before, op := ops[..|ops| - 1], ops[|ops| - 1];
      assert forall i | 0 <= i < |before| :: before[i] == ops[i];
      SidesApart(original, before, h);
      LiveWereAdded(before, h);
      WithoutMembers(Fronts(before), op.h, h);
      WithoutMembers(Backs(before), op.h, h);
      assert !op.Remove? && op.h == h ==> !Added(before, h);
    }
  }

  /**
   After any series of adds, front adds and removes the handlers are: those added in front, newest first,
   the original vector, those added behind, oldest first. So the original vector is never lost.
  */
  lemma {:induction false} SeriesInClosedForm<H>(original: H, ops: seq<Op<H>>)
    requires OwnHandles(original, ops)
    ensures ApplyAll([original], ops) == Fronts(ops) + [original] + Backs(ops)
  {
    if ops == [] {
      assert [] + [original] + [] == [original];
    } else {
      var before, op := ops[..|ops| - 1], ops[|ops| - 1];
      assert forall i | 0 <= i < |before| :: before[i] == ops[i];
      SeriesInClosedForm(original, before);
      var f, b := Fronts(before), Backs(before);
      match op
      case Append(h) => assert f + [original] + b + [h] == f + [original] + (b + [h]);
      case Prepend(h) => assert [h] + (f + [original] + b) == [h] + f + [original] + b;
      case Remove(h) => {
        SidesApart(original, before, h);
        WithoutConcat(f + [original], b, h);
        WithoutConcat(f, [original], h);
        if h in f {
          WithoutAbsent(b, h);
        } else {
          WithoutAbsent(f, h);
        }
      }
    }
  }
}
