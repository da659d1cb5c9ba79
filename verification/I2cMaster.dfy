/**
 hal_i2c_sm of platform/hal/hal_i2c.c: the struct with its two task slots, and the loops of the interrupt
 routine over the command and receive FIFOs. Every method takes exactly its step of I2cSpec.
*/
module I2cMaster {
  import opened Common
  import opened I2cSpec

  /** One more word pushed is one more word of the burst. */
  lemma PushOneMore(hw: Hw, t: Task, n: nat, w: Cmd)
    requires w == Word(t, t.txIdx, t.txIdx + n)
    ensures Push(Push(hw, Words(t, t.txIdx, t.txIdx, n)), [w]) == Push(hw, Words(t, t.txIdx, t.txIdx, n + 1))
  {
    var ws := Words(t, t.txIdx, t.txIdx, n);
    assert Words(t, t.txIdx, t.txIdx, n + 1) == ws + [w];
    assert hw.tx + (ws + [w]) == (hw.tx + ws) + [w];
  }

  /** After k bytes the loop over the receive FIFO has stored the first k of rx and left the others. */
  predicate StoredSoFar(t: Task, rx: seq<Byte>, k: nat, left: seq<Byte>, buf: seq<Byte>) {
    k <= |rx| && left == rx[k..] && buf == Splice(t.buf, t.rxIdx, rx[..k])
  }

  lemma NothingStored(t: Task, rx: seq<Byte>)
    requires t.rxIdx <= |t.buf|
    ensures StoredSoFar(t, rx, 0, rx, t.buf)
  {
    assert t.buf == t.buf[..t.rxIdx] + rx[..0] + t.buf[t.rxIdx..];
  }

  lemma OneMoreStored(t: Task, rx: seq<Byte>, k: nat, left: seq<Byte>, buf: seq<Byte>)
    requires StoredSoFar(t, rx, k, left, buf) && k < |rx| && t.rxIdx + k < |t.buf|
    ensures left != [] && |buf| == |t.buf|
    ensures StoredSoFar(t, rx, k + 1, left[1..], buf[t.rxIdx + k := left[0]])
  {
  }

  predicate OnBus(es: seq<Step>) {
    forall i | 0 <= i < |es| :: es[i].Exec? || (es[i].Abort? && es[i].source != 0)
  }

  lemma {:induction false} BusRunKeeps(s: Sys, es: seq<Step>, committed: seq<Req>)
    requires Inv(s, committed) && OnBus(es)
    ensures Inv(Run(s, es), committed) && Run(s, es).pc == s.pc && Run(s, es).running == s.running
    decreases |es|
  {
    if es != [] {
      BusKeeps(s, es[0], committed);
      BusRunKeeps(Next(s, es[0]), es[1..], committed);
    }
  }

  /** The phases and what happens between them, as one run. */
  lemma Phases(s: Sys, e1: seq<Step>, e2: seq<Step>, e3: seq<Step>, cb: seq<Req>)
    requires Slots(s)
    ensures var s1 := Run(Next(s, Irq(cb)), e1);
            var s3 := Run(Next(s1, RxPhase), e2);
            var s5 := Run(Next(s3, TxPhase), e3);
            Run(s, [Irq(cb)] + e1 + [RxPhase] + e2 + [TxPhase] + e3 + [StopPhase(cb)]) == Next(s5, StopPhase(cb))
  {
    var a := [Irq(cb)] + e1;
    var b := a + [RxPhase] + e2;
    var c := b + [TxPhase] + e3;
    RunOne(s, Irq(cb));
    RunSplit(s, [Irq(cb)], e1);
    RunSplit(s, a, [RxPhase]);
    RunOne(Run(s, a), RxPhase);
    RunSplit(s, a + [RxPhase], e2);
    RunSplit(s, b, [TxPhase]);
    RunOne(Run(s, b), TxPhase);
    RunSplit(s, b + [TxPhase], e3);
    RunSplit(s, c, [StopPhase(cb)]);
    RunOne(Run(s, c), StopPhase(cb));
  }

  class Master {
    var tasks: seq<Task>
    var inTask: nat
    var outTask: nat
    var taskCount: nat
    var running: bool
    var hw: Hw
    ghost var pc: Pc
    ghost var log: seq<Done>

    ghost function State(): Sys
      reads this
    {
      Sys(tasks, inTask, outTask, taskCount, running, hw, pc, log)
    }

    ghost predicate Valid()
      reads this
    {
      Slots(State())
    }

    constructor ()
      ensures Valid() && State() == Start()
    {
      var t := Fresh(Req([], 0, 0, Send, false, 0));
      tasks, inTask, outTask, taskCount, running, hw, pc, log := [t, t], 0, 0, 0, false, Reset(), Out, [];
    }

    method SmCommit(q: Req) returns (cur: nat)
      requires Valid()
      modifies this
      ensures Valid() && State() == Commit(old(State()), q) && cur == old(inTask)
    {
      cur := inTask;
      tasks := tasks[cur := Task(q, q.buf, q.txLen, 0, false)];
      inTask := (inTask + 1) % 2;
      taskCount := taskCount + 1;
    }

    method SmDone()
      modifies this`running, this`inTask, this`outTask, this`taskCount
      ensures State() == old(State()).(running := false, inTask := 0, outTask := 0, count := 0)
    {
      running, inTask, outTask, taskCount := false, 0, 0, 0;
    }

    method SmNextTask()
      modifies this
      ensures State() == NextTask(old(State()))
    {
      if taskCount <= 0 {
        SmDone();
        return;
      }
      hw := Reset();
    }

    method SmKickoff()
      modifies this
      ensures State() == Kickoff(old(State()))
    {
      if !running {
        running := true;
        SmNextTask();
      }
    }

    /** The handler of the finished task makes the requests cb while its slot is still counted. */
    method SmDoneTask(errcode: nat, cb: seq<Req>)
      requires Valid() && running && taskCount > 0
      modifies this
      ensures Valid() && State() == DoneTask(old(State()), errcode, cb)
    {
      log := log + [Logged(State(), errcode)];
      ghost var goal := CommitAll(State(), cb);
      var i := 0;
      while i < |cb|
        invariant 0 <= i <= |cb| && Valid() && running && taskCount > 0
        invariant CommitAll(State(), cb[i..]) == goal
      {
        var cur := SmCommit(cb[i]);
        SmKickoff();
        i := i + 1;
      }
      outTask := (outTask + 1) % 2;
      taskCount := taskCount - 1;
      hw := Reset();
    }

    method ReadCmd() returns (b: Byte)
      requires hw.rx != []
      modifies this`hw
      ensures b == old(hw).rx[0] && hw == old(hw).(rx := old(hw).rx[1..])
    {
      b := hw.rx[0];
      hw := hw.(rx := hw.rx[1..]);
    }

    /** The loops over the receive FIFO, on receiving and after a STOP. */
    method ReadLoop(t: Task) returns (buf: seq<Byte>, i: nat)
      requires t.rxIdx + Min(|hw.rx|, t.req.rxLen) <= |t.buf|
      modifies this`hw
      ensures var rx, n := old(hw).rx, Min(|old(hw).rx|, t.req.rxLen);
              hw == old(hw).(rx := rx[n..]) && i == t.rxIdx + n && buf == Splice(t.buf, t.rxIdx, rx[..n])
    {
      ghost var rx := hw.rx;
      buf, i := t.buf, t.rxIdx;
      var depth, rxLimit := |hw.rx|, 0;
      NothingStored(t, rx);
      while rxLimit < depth && i < t.rxIdx + t.req.rxLen
        invariant 0 <= rxLimit <= Min(depth, t.req.rxLen) && i == t.rxIdx + rxLimit
        invariant StoredSoFar(t, rx, rxLimit, hw.rx, buf) && hw == old(hw).(rx := hw.rx)
        decreases depth - rxLimit
      {
        OneMoreStored(t, rx, rxLimit, hw.rx, buf);
        var b := ReadCmd();
        buf := buf[i := b];
        i, rxLimit := i + 1, rxLimit + 1;
      }
    }

    method ReadFifo()
      requires Valid() && Transfer(tasks[outTask], hw)
      modifies this`tasks, this`hw
      ensures Valid() && State() == Drain(old(State()))
    {
      DrainFits(tasks[outTask], hw);
      var buf, i := ReadLoop(tasks[outTask]);
      tasks := tasks[outTask := tasks[outTask].(buf := buf, rxIdx := i)];
    }

    method WriteCmd(w: Cmd)
      modifies this`hw
      ensures hw == Push(old(hw), [w])
    {
      if hw.abort == 0 {
        hw := hw.(tx := hw.tx + [w]);
      }
    }

    /** The loop of a sending task over its bytes. */
    method SendLoop(t: Task) returns (i: nat)
      requires Transfer(t, hw) && t.req.action.Send?
      modifies this`hw
      ensures var n := Room(t, |old(hw).rx|);
              i == t.txIdx + n && hw == Push(old(hw), Words(t, t.txIdx, t.txIdx, n))
    {
      i := t.txIdx;
      var txLimit, restart, stop := 0, false, false;
      assert Push(hw, []) == hw by { assert hw.tx + [] == hw.tx; }
      while i < t.req.txLen && txLimit < FIFO_DEPTH - TX_TL
        invariant 0 <= txLimit <= FIFO_DEPTH - TX_TL && i == t.txIdx + txLimit <= t.req.txLen
        invariant restart == (t.req.restart && t.txIdx <= 0 < i)
        invariant stop ==> i == t.req.txLen
        invariant hw == Push(old(hw), Words(t, t.txIdx, t.txIdx, txLimit))
        decreases t.req.txLen - i
      {
        if i == t.req.txLen - 1 {
          stop := true;
        }
        if i == 0 {
          restart := t.req.restart;
        }
        var w := Cmd(false, t.buf[i], restart, stop);
        PushOneMore(old(hw), t, txLimit, w);
        WriteCmd(w);
        i, txLimit := i + 1, txLimit + 1;
      }
    }

    /** The loop of a receiving task: bytes first, then as many reads as the receive FIFO has room for. */
    method RecvLoop(t: Task) returns (i: nat)
      requires Transfer(t, hw) && t.req.action.Recv?
      modifies this`hw
      ensures var n := Room(t, |old(hw).rx|);
              i == t.txIdx + n && hw == Push(old(hw), Words(t, t.txIdx, t.txIdx, n))
    {
      i := t.txIdx;
      var depth, total := |hw.rx|, t.req.rxLen + t.req.txLen;
      var txLimit, rxLimit, restart, stop := 0, 0, false, false;
      assert Push(hw, []) == hw by { assert hw.tx + [] == hw.tx; }
      while i < total && txLimit < FIFO_DEPTH - TX_TL && rxLimit < FIFO_DEPTH - depth
        invariant 0 <= txLimit == rxLimit <= FIFO_DEPTH - TX_TL && i == t.txIdx + txLimit <= total
        invariant txLimit == 0 || rxLimit <= FIFO_DEPTH - depth
        invariant restart == (t.req.restart && t.txIdx <= t.req.txLen < i)
        invariant stop ==> i == total
        invariant hw == Push(old(hw), Words(t, t.txIdx, t.txIdx, txLimit))
        decreases total - i
      {
        if i == total - 1 {
          stop := true;
        }
        if i == t.req.txLen {
          restart := t.req.restart;
        }
        var w := if i < t.req.txLen then Cmd(false, t.buf[i], restart, stop) else Cmd(true, 0, restart, stop);
        PushOneMore(old(hw), t, txLimit, w);
        WriteCmd(w);
        i, txLimit, rxLimit := i + 1, txLimit + 1, rxLimit + 1;
      }
    }

    /** Pushes on TX_EMPTY and masks that interrupt once the last word is out. */
    method FillFifo()
      requires Valid() && Transfer(tasks[outTask], hw)
      modifies this`tasks, this`hw
      ensures Valid() && State() == Fill(old(State()))
    {
      var t := tasks[outTask];
      var i: nat;
      if t.req.action.Send? {
        i := SendLoop(t);
      } else {
        i := RecvLoop(t);
      }
      tasks := tasks[outTask := t.(txIdx := i)];
      if i == t.req.rxLen + t.req.txLen {
        hw := hw.(txEmptyOn := false);
      }
    }

    // ---- hal_i2c_sm_proc ----

    /** Entry: sample and clear the interrupts; an abort ends the task at once. */
    method Sample(cb: seq<Req>) returns (full: bool, empty: bool, go: bool)
      requires Valid() && pc == Out && (running ==> taskCount > 0)
      modifies this
      ensures Valid() && State() == Next(old(State()), Irq(cb))
      ensures go == (old(running) && old(hw).abort == 0) && (go ==> pc == AtRx(full, empty))
    {
      full, empty, go := false, false, false;
      if !running {
        return;
      }
      if hw.abort != 0 {
        SmDoneTask(hw.abort, cb);
        SmNextTask();
        pc := Out;
        return;
      }
      full, empty, go := |hw.rx| >= RX_TL, hw.txEmptyOn && |hw.tx| <= TX_TL, true;
      if hw.stopDet {
        tasks := tasks[outTask := tasks[outTask].(stopSeen := true)];
        hw := hw.(stopDet := false);
      }
      pc := AtRx(full, empty);
    }

    /** What the controller does meanwhile. */
    method Bus(es: seq<Step>)
      requires Valid() && OnBus(es)
      modifies this`hw
      ensures Valid() && State() == Run(old(State()), es)
    {
      ghost var goal := Run(State(), es);
      var i := 0;
      while i < |es|
        invariant 0 <= i <= |es| && Valid() && Run(State(), es[i..]) == goal
      {
        if running && hw.tx != [] {
          match es[i] {
            case Exec(b) =>
              if hw.tx[0].read ==> |hw.rx| < FIFO_DEPTH {
                hw := ExecOne(hw, b);
              }
            case Abort(source) => hw := hw.(tx := [], abort := source);
            case _ =>
          }
        }
        i := i + 1;
      }
    }

    method EndTask(t: Task, cb: seq<Req>)
      requires Valid() && running && taskCount > 0 && pc == AtStop && t == tasks[outTask] && Transfer(t, hw)
      modifies this
      ensures Valid() && State() == Next(old(State()), StopPhase(cb))
    {
      if t.stopSeen {
        if t.req.action.Recv? {
          ReadFifo();
        }
        SmDoneTask(0, cb);
        SmNextTask();
      }
      pc := Out;
    }

    method RxPart(e: seq<Step>, full: bool, empty: bool, ghost committed: seq<Req>)
      requires Inv(State(), committed) && running && pc == AtRx(full, empty) && OnBus(e)
      modifies this
      ensures State() == Next(Run(old(State()), e), RxPhase)
      ensures Inv(State(), committed) && running && pc == AtTx(empty)
    {
      BusRunKeeps(State(), e, committed);
      Bus(e);
      RxKeeps(State(), committed);
      Receive(full, empty);
    }

    /** The RX_FULL branch. */
    method Receive(full: bool, empty: bool)
      requires Valid() && Transfer(tasks[outTask], hw) && pc == AtRx(full, empty)
      modifies this`tasks, this`hw, this`pc
      ensures Valid() && State() == Next(old(State()), RxPhase) && pc == AtTx(empty)
    {
      if full && tasks[outTask].req.action.Recv? {
        ReadFifo();
      }
      pc := AtTx(empty);
    }

    method TxPart(e: seq<Step>, empty: bool, ghost committed: seq<Req>)
      requires Inv(State(), committed) && running && pc == AtTx(empty) && OnBus(e)
      modifies this
      ensures State() == Next(Run(old(State()), e), TxPhase)
      ensures Inv(State(), committed) && running && pc == AtStop
    {
      BusRunKeeps(State(), e, committed);
      Bus(e);
      TxKeeps(State(), committed);
      if empty {
        FillFifo();
      }
      pc := AtStop;
    }

    method StopPart(e: seq<Step>, cb: seq<Req>, ghost committed: seq<Req>)
      requires Inv(State(), committed) && running && pc == AtStop && OnBus(e)
      modifies this
      ensures Valid() && pc == Out && State() == Next(Run(old(State()), e), StopPhase(cb))
    {
      BusRunKeeps(State(), e, committed);
      Bus(e);
      EndTask(tasks[outTask], cb);
    }

    /**
     The whole interrupt routine: the controller may do e1, e2 and e3 between its phases, and the finished
     task's handler commits cb.
    */
    method Proc(e1: seq<Step>, e2: seq<Step>, e3: seq<Step>, cb: seq<Req>, ghost committed: seq<Req>)
      requires Inv(State(), committed) && pc == Out && Fits(State(), cb)
      requires OnBus(e1) && OnBus(e2) && OnBus(e3)
      modifies this
      ensures Valid() && pc == Out
      ensures if old(running) && old(hw).abort == 0
              then State() == Run(old(State()), [Irq(cb)] + e1 + [RxPhase] + e2 + [TxPhase] + e3 + [StopPhase(cb)])
              else State() == Next(old(State()), Irq(cb))
      ensures old(running) && old(hw).abort != 0 ==>
                log == old(log) + [Done(old(tasks[outTask]).req, old(hw).abort, old(tasks[outTask]).buf,
                                        old(hw).wire, old(hw).replies)]
    {
      if running {
        IrqKeeps(State(), cb, committed);
        DoneShape(State(), hw.abort, cb);
      }
      Phases(State(), e1, e2, e3, cb);
      var full, empty, go := Sample(cb);
      if go {
        ghost var k := committed + [];
        RxPart(e1, full, empty, k);
        TxPart(e2, empty, k);
        StopPart(e3, cb, k);
      }
    }
  }
}
