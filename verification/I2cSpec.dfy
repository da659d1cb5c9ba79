/**
 The task-mode master of platform/hal/hal_i2c.c (interrupt driven, no DMA): two task slots, a 16-bit command
 FIFO and a receive FIFO of 8 entries each. The bus controller runs on by itself between any two phases of
 the interrupt routine; what it executes and what the slave answers is up to the schedule.
*/
module I2cSpec {
  import opened Common

  const FIFO_DEPTH: nat := 8
  const TX_TL: nat := 2
  const RX_TL: nat := 6

  type Byte = b: int | 0 <= b < 256

  /** A word written to the command register. */
  datatype Cmd = Cmd(read: bool, data: Byte, restart: bool, stop: bool)

  datatype Action = Send | Recv

  /** What the caller asks for: the first txLen bytes of buf go out, then rxLen bytes come in behind them. */
  datatype Req = Req(buf: seq<Byte>, txLen: nat, rxLen: nat, action: Action, restart: bool, id: nat)

  datatype Task = Task(req: Req, buf: seq<Byte>, rxIdx: nat, txIdx: nat, stopSeen: bool)

  /**
   The controller since it was last enabled: the two FIFOs, the words executed on the bus, the bytes the
   slave answered, the latched interrupts, and the mask bit of TX_EMPTY.
  */
  datatype Hw = Hw(tx: seq<Cmd>, rx: seq<Byte>, wire: seq<Cmd>, replies: seq<Byte>,
                   stopDet: bool, abort: nat, txEmptyOn: bool)

  /** Where the interrupt routine stands, with the status bits it has sampled. */
  datatype Pc = Out | AtRx(full: bool, empty: bool) | AtTx(empty: bool) | AtStop

  /** A finished task as its handler sees it, with the bus traffic it caused. */
  datatype Done = Done(req: Req, errcode: nat, buf: seq<Byte>, wire: seq<Cmd>, replies: seq<Byte>)

  datatype Sys = Sys(tasks: seq<Task>, inTask: nat, outTask: nat, count: nat, running: bool,
                     hw: Hw, pc: Pc, log: seq<Done>)

  function Total(q: Req): nat { q.txLen + q.rxLen }

  /** hal_i2c_send passes no receive length, and the buffer holds everything. */
  predicate Legal(q: Req) { Total(q) <= |q.buf| && (q.action.Send? ==> q.rxLen == 0) }

  function Fresh(q: Req): Task { Task(q, q.buf, q.txLen, 0, false) }

  function Reset(): Hw { Hw([], [], [], [], false, 0, true) }

  // ---- Task slots ----

  predicate Slots(s: Sys) { |s.tasks| == 2 && s.inTask < 2 && s.outTask < 2 }

  function Current(s: Sys): Task
    requires Slots(s)
  {
    s.tasks[s.outTask]
  }

  function SetCurrent(s: Sys, t: Task): Sys
    requires Slots(s)
  {
    s.(tasks := s.tasks[s.outTask := t])
  }

  /** hal_i2c_sm_commit: nothing checks that a slot is free. */
  function Commit(s: Sys, q: Req): Sys
    requires Slots(s)
  {
    s.(tasks := s.tasks[s.inTask := Fresh(q)], inTask := (s.inTask + 1) % 2, count := s.count + 1)
  }

  function CommitAll(s: Sys, qs: seq<Req>): (r: Sys)
    requires Slots(s)
    ensures Slots(r)
    decreases |qs|
  {
    if qs == [] then s else CommitAll(Commit(s, qs[0]), qs[1..])
  }

  function NextTask(s: Sys): Sys {
    if s.count == 0 then s.(running := false, inTask := 0, outTask := 0)
    else s.(hw := Reset())
  }

  function Kickoff(s: Sys): Sys {
    if s.running then s else NextTask(s.(running := true))
  }

  /** Logs the current task; its handler commits the requests qs; only then does the slot become free. */
  function DoneTask(s: Sys, errcode: nat, qs: seq<Req>): Sys
    requires Slots(s)
  {
    var t := Current(s);
    var c := CommitAll(s.(log := s.log + [Done(t.req, errcode, t.buf, s.hw.wire, s.hw.replies)]), qs);
    c.(outTask := (c.outTask + 1) % 2, count := if c.count > 0 then c.count - 1 else 0, hw := Reset())
  }

  // ---- The three phases of the interrupt routine ----

  function Splice(buf: seq<Byte>, at: nat, xs: seq<Byte>): (r: seq<Byte>)
    ensures |r| == |buf|
  {
    if at + |xs| <= |buf| then buf[..at] + xs + buf[at + |xs|..] else buf
  }

  /** The loop that empties the receive FIFO; its bound moves along with rxIdx. */
  function Drain(s: Sys): Sys
    requires Slots(s)
  {
    var t := Current(s);
    var n := Min(|s.hw.rx|, t.req.rxLen);
    SetCurrent(s.(hw := s.hw.(rx := s.hw.rx[n..])),
               t.(buf := Splice(t.buf, t.rxIdx, s.hw.rx[..n]), rxIdx := t.rxIdx + n))
  }

  /** The word that may carry RESTART. */
  function First(q: Req): nat { if q.action.Send? then 0 else q.txLen }

  /** Word i as pushed by a call that starts at word `from`: RESTART sticks until the call ends. */
  function Word(t: Task, from: nat, i: nat): Cmd {
    Cmd(i >= t.req.txLen,
        if i < t.req.txLen && i < |t.buf| then t.buf[i] else 0,
        t.req.restart && from <= First(t.req) <= i,
        i == Total(t.req) - 1)
  }

  function Words(t: Task, from: nat, i: nat, n: nat): (ws: seq<Cmd>)
    ensures |ws| == n && forall k | 0 <= k < n :: ws[k] == Word(t, from, i + k)
    decreases n
  {
    if n == 0 then [] else [Word(t, from, i)] + Words(t, from, i + 1, n - 1)
  }

  /** How many words one call pushes with `level` bytes in the receive FIFO. */
  function Room(t: Task, level: nat): nat {
    var left := if t.txIdx < Total(t.req) then Total(t.req) - t.txIdx else 0;
    var burst := Min(left, FIFO_DEPTH - TX_TL);
    if t.req.action.Send? then burst
    else Min(burst, if level < FIFO_DEPTH then FIFO_DEPTH - level else 0)
  }

  /** While an abort is pending the controller holds the command FIFO empty. */
  function Push(hw: Hw, ws: seq<Cmd>): Hw {
    if hw.abort == 0 then hw.(tx := hw.tx + ws) else hw
  }

  function Fill(s: Sys): Sys
    requires Slots(s)
  {
    var t := Current(s);
    var n := Room(t, |s.hw.rx|);
    var hw := Push(s.hw, Words(t, t.txIdx, t.txIdx, n));
    SetCurrent(s.(hw := hw.(txEmptyOn := hw.txEmptyOn && t.txIdx + n != Total(t.req))), t.(txIdx := t.txIdx + n))
  }

  // ---- Steps ----

  /**
   An API call; the interrupt routine's entry and three phases, with what the finished task's handler
   commits; the controller executing one word (b is the slave's answer to a read) or aborting.
  */
  datatype Step =
    | Request(q: Req)
    | Irq(cb: seq<Req>) | RxPhase | TxPhase | StopPhase(cb: seq<Req>)
    | Exec(b: Byte) | Abort(source: nat)

  function TxEmpty(hw: Hw): bool { hw.txEmptyOn && |hw.tx| <= TX_TL }

  function RxFull(hw: Hw): bool { |hw.rx| >= RX_TL }

  /** Entry of hal_i2c_sm_proc: sample, clear, and finish the task at once on an abort. */
  function Enter(s: Sys, cb: seq<Req>): Sys
    requires Slots(s)
  {
    if !s.running then s
    else if s.hw.abort != 0 then NextTask(DoneTask(s, s.hw.abort, cb)).(pc := Out)
    else
      var t := Current(s);
      SetCurrent(s.(hw := s.hw.(stopDet := false), pc := AtRx(RxFull(s.hw), TxEmpty(s.hw))),
                 t.(stopSeen := t.stopSeen || s.hw.stopDet))
  }

  function Finish(s: Sys, cb: seq<Req>): Sys
    requires Slots(s)
  {
    if !Current(s).stopSeen then s.(pc := Out)
    else
      var d := if Current(s).req.action.Recv? then Drain(s) else s;
      NextTask(DoneTask(d, 0, cb)).(pc := Out)
  }

  /** There is a word to execute and, if it is a read, room for its answer: the bus waits rather than lose a byte. */
  predicate CanExec(hw: Hw) { hw.tx != [] && (hw.tx[0].read ==> |hw.rx| < FIFO_DEPTH) }

  function ExecOne(hw: Hw, b: Byte): Hw
    requires hw.tx != []
  {
    var w := hw.tx[0];
    hw.(tx := hw.tx[1..], wire := hw.wire + [w],
        rx := if w.read then hw.rx + [b] else hw.rx,
        replies := if w.read then hw.replies + [b] else hw.replies,
        stopDet := hw.stopDet || w.stop)
  }

  function Next(s: Sys, e: Step): (r: Sys)
    requires Slots(s)
    ensures Slots(r)
  {
    match e
    case Request(q) => Kickoff(Commit(s, q))
    case Irq(cb) => if s.pc.Out? then Enter(s, cb) else s
    case RxPhase =>
      if !s.pc.AtRx? then s
      else (if s.pc.full && Current(s).req.action.Recv? then Drain(s) else s).(pc := AtTx(s.pc.empty))
    case TxPhase => if !s.pc.AtTx? then s else (if s.pc.empty then Fill(s) else s).(pc := AtStop)
    case StopPhase(cb) => if s.pc.AtStop? then Finish(s, cb) else s
    case Exec(b) =>
      if s.running && CanExec(s.hw) then s.(hw := ExecOne(s.hw, b)) else s
    case Abort(source) =>
      if s.running && s.hw.tx != [] then s.(hw := s.hw.(tx := [], abort := source)) else s
  }

  function Start(): Sys {
    var t := Fresh(Req([], 0, 0, Send, false, 0));
    Sys([t, t], 0, 0, 0, false, Reset(), Out, [])
  }

  // ---- The transfer invariant ----

  /** Word i of the task, RESTART apart: the buffer's bytes, then reads, STOP on the last word only. */
  predicate WordOk(q: Req, w: Cmd, i: nat) {
    && w.read == (i >= q.txLen)
    && w.data == (if i < q.txLen && i < |q.buf| then q.buf[i] else 0)
    && w.stop == (i == Total(q) - 1)
    && (i < First(q) ==> !w.restart)
    && (i == First(q) ==> w.restart == q.restart)
    && (w.restart ==> q.restart)
  }

  predicate Issued(q: Req, ws: seq<Cmd>) {
    |ws| <= Total(q) && forall i | 0 <= i < |ws| :: WordOk(q, ws[i], i)
  }

  /** In front of txLen and behind rxIdx the buffer is the caller's; between lie the first bytes received. */
  predicate BufferOk(t: Task, hw: Hw) {
    && |t.buf| == |t.req.buf| && t.req.txLen <= t.rxIdx <= |t.buf|
    && t.buf[..t.req.txLen] == t.req.buf[..t.req.txLen]
    && t.buf[t.rxIdx..] == t.req.buf[t.rxIdx..]
    && t.buf[t.req.txLen..t.rxIdx] + hw.rx == hw.replies
  }

  function Reads(q: Req, words: nat): nat { if words <= q.txLen then 0 else words - q.txLen }

  predicate Transfer(t: Task, hw: Hw) {
    && Legal(t.req) && BufferOk(t, hw)
    && Issued(t.req, hw.wire + hw.tx)
    && |hw.replies| == Reads(t.req, |hw.wire|)
    && |hw.wire| + |hw.tx| <= t.txIdx <= Total(t.req) && |hw.tx| <= FIFO_DEPTH
    && (if hw.abort == 0 then |hw.wire| + |hw.tx| == t.txIdx else hw.tx == [])
    && (hw.stopDet || t.stopSeen ==> hw.abort == 0 && |hw.wire| == Total(t.req))
    && (|hw.wire| == Total(t.req) > 0 ==> hw.stopDet || t.stopSeen)
    && (t.txIdx < Total(t.req) ==> hw.txEmptyOn)
  }

  predicate PhaseOk(t: Task, hw: Hw, pc: Pc) {
    match pc
    case Out => !t.stopSeen
    case AtRx(_, empty) => empty ==> |hw.tx| <= TX_TL
    case AtTx(empty) => empty ==> |hw.tx| <= TX_TL
    case AtStop => true
  }

  /** What a task that ended without error did. */
  predicate Good(d: Done) {
    d.errcode == 0 ==>
      && Legal(d.req) && |d.wire| == Total(d.req) && Issued(d.req, d.wire)
      && |d.replies| == d.req.rxLen
      && d.buf == d.req.buf[..d.req.txLen] + d.replies + d.req.buf[Total(d.req)..]
  }

  /** The bytes in the receive FIFO fit behind rxIdx, although the loop's own bound would let it run further. */
  lemma DrainFits(t: Task, hw: Hw)
    requires Transfer(t, hw)
    ensures t.rxIdx + |hw.rx| <= Total(t.req) && |hw.rx| <= t.req.rxLen
    ensures t.rxIdx - t.req.txLen + |hw.rx| == |hw.replies| == Reads(t.req, |hw.wire|)
    ensures t.stopSeen ==> t.rxIdx + |hw.rx| == Total(t.req)
  {
    assert |t.buf[t.req.txLen..t.rxIdx] + hw.rx| == |hw.replies|;
  }

  lemma SpliceKeeps(t: Task, hw: Hw)
    requires BufferOk(t, hw) && t.rxIdx + |hw.rx| <= |t.buf|
    ensures BufferOk(t.(buf := Splice(t.buf, t.rxIdx, hw.rx), rxIdx := t.rxIdx + |hw.rx|), hw.(rx := []))
  {
    var buf, at, to := Splice(t.buf, t.rxIdx, hw.rx), t.rxIdx, t.rxIdx + |hw.rx|;
    assert buf[..t.req.txLen] == t.buf[..t.req.txLen];
    assert buf[to..] == t.req.buf[at..][|hw.rx|..] == t.req.buf[to..];
    assert buf[t.req.txLen..to] == t.buf[t.req.txLen..at] + hw.rx;
    assert buf[t.req.txLen..to] + [] == buf[t.req.txLen..to];
  }

  /** The task when the receive FIFO has been read out. */
  function ReadOut(t: Task, hw: Hw): Task {
    t.(buf := Splice(t.buf, t.rxIdx, hw.rx), rxIdx := t.rxIdx + |hw.rx|)
  }

  lemma ReadOutKeeps(t: Task, hw: Hw)
    requires Transfer(t, hw)
    ensures Transfer(ReadOut(t, hw), hw.(rx := []))
  {
    DrainFits(t, hw);
    SpliceKeeps(t, hw);
  }

  lemma DrainIsReadOut(s: Sys)
    requires Slots(s) && |s.hw.rx| <= Current(s).req.rxLen
    ensures Drain(s) == SetCurrent(s.(hw := s.hw.(rx := [])), ReadOut(Current(s), s.hw))
  {
    DrainAll(Current(s), s.hw);
  }

  lemma DrainKeeps(s: Sys)
    requires Slots(s) && Transfer(Current(s), s.hw)
    ensures var r := Drain(s);
            && Slots(r) && Transfer(Current(r), r.hw) && r.hw == s.hw.(rx := [])
            && r == s.(tasks := r.tasks, hw := r.hw) && r.tasks == s.tasks[s.outTask := Current(r)]
            && Current(r) == ReadOut(Current(s), s.hw)
  {
    DrainFits(Current(s), s.hw);
    ReadOutKeeps(Current(s), s.hw);
    DrainIsReadOut(s);
  }

  /** The loop takes everything the FIFO holds. */
  lemma DrainAll(t: Task, hw: Hw)
    requires |hw.rx| <= t.req.rxLen
    ensures hw.rx[..Min(|hw.rx|, t.req.rxLen)] == hw.rx && hw.rx[Min(|hw.rx|, t.req.rxLen)..] == []
  {
  }

  lemma WordsOk(t: Task, n: nat)
    requires |t.buf| == |t.req.buf| && t.req.txLen <= |t.buf| && t.buf[..t.req.txLen] == t.req.buf[..t.req.txLen]
    ensures var ws := Words(t, t.txIdx, t.txIdx, n); forall k | 0 <= k < n :: WordOk(t.req, ws[k], t.txIdx + k)
  {
    forall i | 0 <= i < t.req.txLen ensures t.buf[i] == t.req.buf[i] {
      assert t.buf[..t.req.txLen][i] == t.req.buf[..t.req.txLen][i];
    }
  }

  lemma PushKeeps(t: Task, hw: Hw, n: nat, on: bool)
    requires Transfer(t, hw) && |hw.tx| <= TX_TL && n <= FIFO_DEPTH - TX_TL && t.txIdx + n <= Total(t.req)
    requires t.txIdx + n < Total(t.req) ==> on
    ensures Transfer(t.(txIdx := t.txIdx + n), Push(hw, Words(t, t.txIdx, t.txIdx, n)).(txEmptyOn := on))
  {
    if hw.abort == 0 {
      var ws := Words(t, t.txIdx, t.txIdx, n);
      WordsOk(t, n);
      IssuedGrows(t.req, hw.wire + hw.tx, ws);
      Associates(hw.wire, hw.tx, ws);
    }
  }

  lemma IssuedGrows(q: Req, done: seq<Cmd>, ws: seq<Cmd>)
    requires Issued(q, done) && |done| + |ws| <= Total(q)
    requires forall k | 0 <= k < |ws| :: WordOk(q, ws[k], |done| + k)
    ensures Issued(q, done + ws)
  {
    forall i | 0 <= i < |done + ws| ensures WordOk(q, (done + ws)[i], i) {
      if i >= |done| {
        assert (done + ws)[i] == ws[i - |done|];
      }
    }
  }

  lemma FillKeeps(s: Sys)
    requires Slots(s) && Transfer(Current(s), s.hw) && |s.hw.tx| <= TX_TL
    ensures var r := Fill(s);
            && Slots(r) && Transfer(Current(r), r.hw)
            && r == SetCurrent(s, Current(r)).(hw := r.hw)
            && Current(r).req == Current(s).req
  {
    var t, n := Current(s), Room(Current(s), |s.hw.rx|);
    PushKeeps(t, s.hw, n, s.hw.txEmptyOn && t.txIdx + n != Total(t.req));
  }

  lemma ExecKeeps(t: Task, hw: Hw, b: Byte)
    requires Transfer(t, hw) && hw.tx != []
    ensures Transfer(t, ExecOne(hw, b))
  {
    var r := ExecOne(hw, b);
    assert r.wire + r.tx == hw.wire + hw.tx;
    assert (hw.wire + hw.tx)[|hw.wire|] == hw.tx[0];
    assert hw.tx[0].read ==> t.buf[t.req.txLen..t.rxIdx] + (hw.rx + [b]) == (t.buf[t.req.txLen..t.rxIdx] + hw.rx) + [b];
  }

  lemma AbortKeeps(t: Task, hw: Hw, source: nat)
    requires Transfer(t, hw) && hw.tx != [] && source != 0
    ensures Transfer(t, hw.(tx := [], abort := source))
  {
    assert forall i | 0 <= i < |hw.wire| :: (hw.wire + [])[i] == (hw.wire + hw.tx)[i];
  }

  lemma FreshTransfers(q: Req)
    requires Legal(q)
    ensures Transfer(Fresh(q), Reset()) && PhaseOk(Fresh(q), Reset(), Out)
  {
    assert q.buf[q.txLen..q.txLen] + [] == [];
  }

  lemma FinishedIsGood(t: Task, hw: Hw)
    requires Transfer(t, hw) && t.stopSeen && (t.req.action.Recv? ==> hw.rx == [])
    ensures Good(Done(t.req, 0, t.buf, hw.wire, hw.replies))
  {
    DrainFits(t, hw);
    var q := t.req;
    assert hw.tx == [] && hw.rx == [];
    assert hw.wire + hw.tx == hw.wire;
    assert t.buf[q.txLen..t.rxIdx] + hw.rx == t.buf[q.txLen..t.rxIdx];
    assert t.buf == t.buf[..q.txLen] + t.buf[q.txLen..t.rxIdx] + t.buf[t.rxIdx..];
  }

  // ---- Task order ----

  function Other(s: Sys): Task
    requires Slots(s)
  {
    s.tasks[1 - s.outTask]
  }

  /** The requests not yet finished, in the order their slots will be served. */
  function Pending(s: Sys): seq<Req>
    requires Slots(s)
  {
    if s.count == 0 then [] else if s.count == 1 then [Current(s).req] else [Current(s).req, Other(s).req]
  }

  function Reqs(log: seq<Done>): (r: seq<Req>)
    ensures |r| == |log| && forall i | 0 <= i < |log| :: r[i] == log[i].req
  {
    if log == [] then [] else [log[0].req] + Reqs(log[1..])
  }

  /** The ring of slots, while no more is committed than fits. */
  predicate Ring(s: Sys) {
    && Slots(s) && s.count <= 2 && s.inTask == (s.outTask + s.count) % 2
    && (s.count == 2 ==> Legal(Other(s).req) && Other(s) == Fresh(Other(s).req))
  }

  predicate Inv(s: Sys, committed: seq<Req>) {
    && Ring(s) && (s.running <==> s.count > 0) && (!s.running ==> s.pc.Out?)
    && (s.running ==> Transfer(Current(s), s.hw) && PhaseOk(Current(s), s.hw, s.pc))
    && (forall i | 0 <= i < |s.log| :: Good(s.log[i]))
    && Reqs(s.log) + Pending(s) == committed
  }

  /** Committing appends to the queue of requests exactly when a slot is free; else it takes the running task's. */
  lemma CommitExact(s: Sys, q: Req)
    requires Ring(s) && Legal(q)
    ensures s.count < 2 ==> Ring(Commit(s, q)) && Pending(Commit(s, q)) == Pending(s) + [q]
    ensures s.count < 2 ==> (s.count > 0 ==> Current(Commit(s, q)) == Current(s))
    ensures s.count == 2 ==> !Ring(Commit(s, q)) && Current(Commit(s, q)) == Fresh(q)
    ensures s.count == 0 ==> Current(Commit(s, q)) == Fresh(q)
  {
  }

  lemma {:induction false} CommitAllFits(s: Sys, qs: seq<Req>)
    requires Ring(s) && s.count + |qs| <= 2 && s.count > 0 && forall i | 0 <= i < |qs| :: Legal(qs[i])
    ensures var r := CommitAll(s, qs);
            && Ring(r) && Pending(r) == Pending(s) + qs && Current(r) == Current(s) && r.count == s.count + |qs|
            && r == s.(tasks := r.tasks, inTask := r.inTask, count := r.count)
    decreases |qs|
  {
    if qs != [] {
      CommitExact(s, qs[0]);
      CommitAllFits(Commit(s, qs[0]), qs[1..]);
      assert Pending(s) + [qs[0]] + qs[1..] == Pending(s) + qs;
    } else {
      assert Pending(s) + qs == Pending(s);
    }
  }

  /** What is asked of the callers: legal requests, and no commit while both slots are taken. */
  predicate Fits(s: Sys, qs: seq<Req>) {
    s.count + |qs| <= 2 && forall i | 0 <= i < |qs| :: Legal(qs[i])
  }

  lemma ReqsAppend(log: seq<Done>, d: Done)
    ensures Reqs(log + [d]) == Reqs(log) + [d.req]
  {
  }

  /** The front slot becomes free; what is next in line, if anything, has not been started. */
  function Rotate(s: Sys): Sys
    requires Slots(s) && s.count > 0
  {
    s.(outTask := (s.outTask + 1) % 2, count := s.count - 1, hw := Reset())
  }

  lemma RotateKeeps(s: Sys)
    requires Ring(s) && s.count > 0
    ensures Ring(Rotate(s)) && Pending(s) == [Current(s).req] + Pending(Rotate(s))
    ensures Rotate(s).count > 0 ==> Legal(Current(Rotate(s)).req) && Current(Rotate(s)) == Fresh(Current(Rotate(s)).req)
  {
  }

  lemma StartedIsInv(r: Sys, committed: seq<Req>)
    requires Ring(r) && r.running && r.hw == Reset()
    requires r.count > 0 ==> Legal(Current(r).req) && Current(r) == Fresh(Current(r).req)
    requires (forall i | 0 <= i < |r.log| :: Good(r.log[i])) && Reqs(r.log) + Pending(r) == committed
    ensures Inv(NextTask(r).(pc := Out), committed)
  {
    if r.count > 0 {
      FreshTransfers(Current(r).req);
    }
  }

  lemma Shift<T>(done: seq<T>, x: T, rest: seq<T>, pending: seq<T>, cb: seq<T>)
    requires pending + cb == [x] + rest
    ensures (done + [x]) + rest == (done + pending) + cb
  {
    assert (done + [x]) + rest == done + ([x] + rest);
    assert (done + pending) + cb == done + (pending + cb);
  }

  function Logged(s: Sys, errcode: nat): Done
    requires Slots(s)
  {
    Done(Current(s).req, errcode, Current(s).buf, s.hw.wire, s.hw.replies)
  }

  lemma DoneShape(s: Sys, errcode: nat, cb: seq<Req>)
    requires Ring(s) && s.count > 0 && Fits(s, cb)
    ensures var l := s.(log := s.log + [Logged(s, errcode)]);
            var r := DoneTask(s, errcode, cb);
            && Ring(r) && r.hw == Reset() && r.running == s.running && r.log == l.log
            && Pending(s) + cb == [Current(s).req] + Pending(r)
            && (r.count > 0 ==> Legal(Current(r).req) && Current(r) == Fresh(Current(r).req))
  {
    var l := s.(log := s.log + [Logged(s, errcode)]);
    CommitAllFits(l, cb);
    RotateKeeps(CommitAll(l, cb));
  }

  /** The finished task leaves the front, what its handler commits joins the back, the next task starts afresh. */
  lemma DoneKeeps(s: Sys, errcode: nat, cb: seq<Req>, committed: seq<Req>)
    requires Ring(s) && s.count > 0 && s.running && Fits(s, cb) && Good(Logged(s, errcode))
    requires (forall i | 0 <= i < |s.log| :: Good(s.log[i])) && Reqs(s.log) + Pending(s) == committed
    ensures Inv(NextTask(DoneTask(s, errcode, cb)).(pc := Out), committed + cb)
  {
    var r := DoneTask(s, errcode, cb);
    DoneShape(s, errcode, cb);
    ReqsAppend(s.log, Logged(s, errcode));
    Shift(Reqs(s.log), Current(s).req, Pending(r), Pending(s), cb);
    StartedIsInv(r, committed + cb);
  }

  // ---- Every run ----

  lemma SetSameReq(s: Sys, r: Sys, committed: seq<Req>)
    requires Inv(s, committed) && s.running && Slots(r)
    requires r == SetCurrent(s, Current(r)).(hw := r.hw, pc := r.pc) && Current(r).req == Current(s).req
    requires Transfer(Current(r), r.hw) && PhaseOk(Current(r), r.hw, r.pc)
    ensures Inv(r, committed)
  {
  }

  lemma RequestKeeps(s: Sys, q: Req, committed: seq<Req>)
    requires Inv(s, committed) && Fits(s, [q])
    ensures Inv(Next(s, Request(q)), committed + [q])
  {
    assert Legal([q][0]);
    CommitExact(s, q);
    FreshTransfers(q);
    assert Reqs(s.log) + (Pending(s) + [q]) == committed + [q];
  }

  lemma SampleKeeps(t: Task, hw: Hw)
    requires Transfer(t, hw)
    ensures Transfer(t.(stopSeen := t.stopSeen || hw.stopDet), hw.(stopDet := false))
  {
    var u, h := t.(stopSeen := t.stopSeen || hw.stopDet), hw.(stopDet := false);
    assert BufferOk(u, h);
  }

  lemma IrqKeeps(s: Sys, cb: seq<Req>, committed: seq<Req>)
    requires Inv(s, committed) && Fits(s, cb) && s.pc.Out? && s.running
    ensures Inv(Enter(s, cb), committed + if s.hw.abort != 0 then cb else [])
  {
    if s.hw.abort != 0 {
      DoneKeeps(s, s.hw.abort, cb, committed);
    } else {
      SampleKeeps(Current(s), s.hw);
      SetSameReq(s, Enter(s, cb), committed);
      assert committed + [] == committed;
    }
  }

  lemma RxKeeps(s: Sys, committed: seq<Req>)
    requires Inv(s, committed)
    ensures Inv(Next(s, RxPhase), committed)
  {
    if s.running && s.pc.AtRx? {
      var d := Drain(s);
      DrainKeeps(s);
      assert d.hw.tx == s.hw.tx;
      SetSameReq(s, Next(s, RxPhase), committed);
    }
  }

  lemma TxKeeps(s: Sys, committed: seq<Req>)
    requires Inv(s, committed)
    ensures Inv(Next(s, TxPhase), committed)
  {
    if s.running && s.pc.AtTx? {
      if s.pc.empty {
        FillKeeps(s);
        SetSameReq(s, Fill(s).(pc := AtStop), committed);
      } else {
        SetSameReq(s, s.(pc := AtStop), committed);
      }
    }
  }

  lemma DrainSameQueue(s: Sys)
    requires Ring(s) && s.running && s.count > 0 && Transfer(Current(s), s.hw)
    ensures var d := Drain(s);
            && Ring(d) && d.running && d.count == s.count && d.log == s.log && Pending(d) == Pending(s)
            && d.hw == s.hw.(rx := []) && Transfer(Current(d), d.hw) && Current(d).stopSeen == Current(s).stopSeen
  {
    DrainKeeps(s);
  }

  lemma StopKeeps(s: Sys, cb: seq<Req>, committed: seq<Req>)
    requires Inv(s, committed) && Fits(s, cb) && s.pc.AtStop?
    ensures Inv(Finish(s, cb), committed + if Current(s).stopSeen then cb else [])
  {
    if Current(s).stopSeen {
      DrainSameQueue(s);
      var d := if Current(s).req.action.Recv? then Drain(s) else s;
      FinishedIsGood(Current(d), d.hw);
      DoneKeeps(d, 0, cb, committed);
    } else {
      assert committed + [] == committed;
      SetSameReq(s, Finish(s, cb), committed);
    }
  }

  lemma BusKeeps(s: Sys, e: Step, committed: seq<Req>)
    requires Inv(s, committed) && (e.Exec? || (e.Abort? && e.source != 0))
    ensures Inv(Next(s, e), committed)
  {
    if s.running && s.hw.tx != [] {
      if e.Abort? {
        AbortKeeps(Current(s), s.hw, e.source);
        SetSameReq(s, Next(s, e), committed);
      } else if CanExec(s.hw) {
        ExecKeeps(Current(s), s.hw, e.b);
        SetSameReq(s, s.(hw := ExecOne(s.hw, e.b)), committed);
      }
    }
  }

  /** The requests a step adds. */
  function Adds(s: Sys, e: Step): seq<Req>
    requires Slots(s)
  {
    match e
    case Request(q) => [q]
    case Irq(cb) => if s.pc.Out? && s.running && s.hw.abort != 0 then cb else []
    case StopPhase(cb) => if s.pc.AtStop? && Current(s).stopSeen then cb else []
    case _ => []
  }

  /** Callers commit only while a slot is free; an abort has a source. */
  predicate Allowed(s: Sys, e: Step) {
    match e
    case Request(q) => Fits(s, [q])
    case Irq(cb) => Fits(s, cb)
    case StopPhase(cb) => Fits(s, cb)
    case Abort(source) => source != 0
    case _ => true
  }

  lemma NextKeeps(s: Sys, e: Step, committed: seq<Req>)
    requires Inv(s, committed) && Allowed(s, e)
    ensures Inv(Next(s, e), committed + Adds(s, e))
  {
    assert committed + [] == committed;
    match e
    case Request(q) => RequestKeeps(s, q, committed);
    case Irq(cb) => if s.pc.Out? && s.running { IrqKeeps(s, cb, committed); }
    case StopPhase(cb) => if s.pc.AtStop? { StopKeeps(s, cb, committed); }
    case RxPhase => RxKeeps(s, committed);
    case TxPhase => TxKeeps(s, committed);
    case _ => BusKeeps(s, e, committed);
  }

  function Run(s: Sys, es: seq<Step>): (r: Sys)
    requires Slots(s)
    ensures Slots(r)
    decreases |es|
  {
    if es == [] then s else Run(Next(s, es[0]), es[1..])
  }

  function Committed(s: Sys, es: seq<Step>): seq<Req>
    requires Slots(s)
    decreases |es|
  {
    if es == [] then [] else Adds(s, es[0]) + Committed(Next(s, es[0]), es[1..])
  }

  predicate AllowedRun(s: Sys, es: seq<Step>)
    requires Slots(s)
    decreases |es|
  {
    es == [] || (Allowed(s, es[0]) && AllowedRun(Next(s, es[0]), es[1..]))
  }

  lemma {:induction false} RunKeeps(s: Sys, es: seq<Step>, committed: seq<Req>)
    requires Inv(s, committed) && AllowedRun(s, es)
    ensures Inv(Run(s, es), committed + Committed(s, es))
    decreases |es|
  {
    if es == [] {
      assert committed + [] == committed;
    } else {
      NextKeeps(s, es[0], committed);
      RunKeeps(Next(s, es[0]), es[1..], committed + Adds(s, es[0]));
      Associates(committed, Adds(s, es[0]), Committed(Next(s, es[0]), es[1..]));
    }
  }

  /**
   However the interrupts slice the transfers: tasks finish in the order they were committed, and each one
   that ends without error has sent exactly its words, STOP on the last one only, and has stored exactly
   the bytes the slave answered behind the bytes sent.
  */
  lemma TransfersAreExact(es: seq<Step>)
    requires AllowedRun(Start(), es)
    ensures InOrder(Run(Start(), es), Committed(Start(), es))
  {
    var s, committed := Run(Start(), es), Committed(Start(), es);
    StartIsInv();
    RunInv(Start(), es, s, committed);
    InvTells(s, committed);
  }

  /** The tasks logged and the ones still in the slots are the committed ones, in order; the logged ones are right. */
  predicate InOrder(s: Sys, committed: seq<Req>) {
    && Slots(s) && s.inTask == (s.outTask + s.count) % 2 && Reqs(s.log) + Pending(s) == committed
    && (forall i | 0 <= i < |s.log| :: Good(s.log[i]))
  }

  /**
   Where a task that ended without error has put RESTART: a sending one on its first word, a receiving one on its first
   read and on no byte before it, each exactly if it was asked for.
  */
  lemma RestartExactly(d: Done)
    requires Good(d) && d.errcode == 0
    ensures d.req.action.Send? && |d.wire| > 0 ==> d.wire[0].restart == d.req.restart
    ensures d.req.action.Recv? ==>
              && (forall i | 0 <= i < d.req.txLen :: !d.wire[i].restart)
              && (d.req.rxLen > 0 ==> d.wire[d.req.txLen].read && d.wire[d.req.txLen].restart == d.req.restart)
    ensures !d.req.restart ==> forall i | 0 <= i < |d.wire| :: !d.wire[i].restart
  {
    forall i | 0 <= i < |d.wire| ensures WordOk(d.req, d.wire[i], i) {
    }
  }

  lemma NothingBefore(qs: seq<Req>)
    ensures [] + qs == qs
  {
  }

  lemma RunInv(i: Sys, es: seq<Step>, s: Sys, committed: seq<Req>)
    requires Inv(i, []) && AllowedRun(i, es) && s == Run(i, es) && committed == Committed(i, es)
    ensures Inv(s, committed)
  {
    RunKeeps(i, es, []);
    NothingBefore(committed);
  }

  // ---- What the handlers are told ----

  /** The controller gives up the running task. */
  predicate Strikes(s: Sys, e: Step) { e.Abort? && s.running && s.hw.tx != [] }

  /** The source of the abort that struck the k-th task, counting from 0 in the order of the log; 0 for none. */
  function StruckBy(s: Sys, es: seq<Step>, k: nat): nat
    requires Slots(s)
    decreases |es|
  {
    if es == [] then 0
    else if Strikes(s, es[0]) && |s.log| == k then es[0].source
    else StruckBy(Next(s, es[0]), es[1..], k)
  }

  /** The same, when an abort may already be pending. */
  function Told(s: Sys, es: seq<Step>, k: nat): nat
    requires Slots(s)
  {
    if |s.log| == k && s.running && s.hw.abort != 0 then s.hw.abort else StruckBy(s, es, k)
  }

  /** The step at which the running task ends. */
  predicate Ends(s: Sys, e: Step)
    requires Slots(s)
  {
    match e
    case Irq(_) => s.pc.Out? && s.running && s.hw.abort != 0
    case StopPhase(_) => s.pc.AtStop? && Current(s).stopSeen
    case _ => false
  }

  /** The log has one more entry, for this request, and the abort is not pending any more. */
  predicate Logs(s: Sys, n: Sys, req: Req, errcode: nat) {
    && |n.log| == |s.log| + 1 && n.log[..|s.log|] == s.log
    && n.log[|s.log|].req == req && n.log[|s.log|].errcode == errcode
    && (n.running ==> n.hw.abort == 0)
  }

  lemma DoneLogs(s: Sys, errcode: nat, cb: seq<Req>)
    requires Ring(s) && s.count > 0 && Fits(s, cb)
    ensures Logs(s, NextTask(DoneTask(s, errcode, cb)).(pc := Out), Current(s).req, errcode)
  {
    DoneShape(s, errcode, cb);
  }

  lemma StopLogs(s: Sys, cb: seq<Req>, committed: seq<Req>)
    requires Inv(s, committed) && Fits(s, cb) && s.pc.AtStop? && Current(s).stopSeen
    ensures s.hw.abort == 0 && Logs(s, Finish(s, cb), Current(s).req, 0)
  {
    DrainSameQueue(s);
    DrainKeeps(s);
    DoneLogs(if Current(s).req.action.Recv? then Drain(s) else s, 0, cb);
  }

  /** A task that ends is logged with the pending abort. */
  lemma EndLogs(s: Sys, e: Step, committed: seq<Req>)
    requires Inv(s, committed) && Allowed(s, e) && Ends(s, e)
    ensures Logs(s, Next(s, e), Current(s).req, s.hw.abort)
  {
    match e
    case Irq(cb) => DoneLogs(s, s.hw.abort, cb);
    case StopPhase(cb) => StopLogs(s, cb, committed);
    case _ =>
  }

  /** Any other step leaves the log alone, and the pending abort too unless it strikes one or starts a task. */
  lemma OthersLogNothing(s: Sys, e: Step, committed: seq<Req>)
    requires Inv(s, committed) && Allowed(s, e) && !Ends(s, e)
    ensures var n := Next(s, e);
            && n.log == s.log && (Strikes(s, e) ==> n.running && s.hw.abort == 0 && n.hw.abort == e.source != 0)
            && (!Strikes(s, e) ==> (n.running && n.hw.abort != 0 <==> s.running && s.hw.abort != 0)
                                   && (n.running && n.hw.abort != 0 ==> n.hw.abort == s.hw.abort))
  {
    if e.RxPhase? && s.running && s.pc.AtRx? {
      DrainKeeps(s);
    }
  }

  lemma {:induction false} StruckBefore(s: Sys, es: seq<Step>, committed: seq<Req>, k: nat)
    requires Inv(s, committed) && AllowedRun(s, es) && k < |s.log|
    ensures StruckBy(s, es, k) == 0
    decreases |es|
  {
    if es != [] {
      LogGrows(s, es[0], committed);
      NextKeeps(s, es[0], committed);
      StruckBefore(Next(s, es[0]), es[1..], committed + Adds(s, es[0]), k);
    }
  }

  lemma LogGrows(s: Sys, e: Step, committed: seq<Req>)
    requires Inv(s, committed) && Allowed(s, e)
    ensures |s.log| <= |Next(s, e).log| <= |s.log| + 1 && Next(s, e).log[..|s.log|] == s.log
  {
    if Ends(s, e) {
      EndLogs(s, e, committed);
    } else {
      OthersLogNothing(s, e, committed);
    }
  }

  /** One step: what is to be told stays, and what is told is it. */
  lemma ToldStep(s: Sys, es: seq<Step>, committed: seq<Req>, k: nat)
    requires Inv(s, committed) && AllowedRun(s, es) && es != [] && k >= |s.log|
    ensures var n := Next(s, es[0]);
            if k < |n.log| then n.log[k].errcode == Told(s, es, k) else Told(n, es[1..], k) == Told(s, es, k)
  {
    var n := Next(s, es[0]);
    NextKeeps(s, es[0], committed);
    if Ends(s, es[0]) {
      EndLogs(s, es[0], committed);
      if k == |s.log| {
        StruckBefore(n, es[1..], committed + Adds(s, es[0]), k);
      }
    } else {
      OthersLogNothing(s, es[0], committed);
    }
  }

  lemma {:induction false} RunTells(s: Sys, es: seq<Step>, committed: seq<Req>, k: nat)
    requires Inv(s, committed) && AllowedRun(s, es) && k < |Run(s, es).log|
    ensures if k < |s.log| then Run(s, es).log[k] == s.log[k] else Run(s, es).log[k].errcode == Told(s, es, k)
    decreases |es|
  {
    if es != [] {
      var n := Next(s, es[0]);
      NextKeeps(s, es[0], committed);
      LogGrows(s, es[0], committed);
      RunTells(n, es[1..], committed + Adds(s, es[0]), k);
      if k < |s.log| {
        assert n.log[..|s.log|][k] == s.log[k];
      } else {
        ToldStep(s, es, committed, k);
      }
    }
  }

  /**
   Over every allowed run the handler of each finished task is told the source of the abort that struck that very
   task, and 0 exactly if none did.
  */
  lemma ErrcodesAreExact(es: seq<Step>, k: nat)
    requires AllowedRun(Start(), es) && k < |Run(Start(), es).log|
    ensures Run(Start(), es).log[k].errcode == StruckBy(Start(), es, k)
  {
    StartIsInv();
    RunTells(Start(), es, [], k);
  }

  lemma StartIsInv()
    ensures Inv(Start(), [])
  {
  }

  lemma InvTells(s: Sys, committed: seq<Req>)
    requires Inv(s, committed)
    ensures InOrder(s, committed)
  {
  }

  // ---- Conservation ----

  function CountReads(ws: seq<Cmd>): nat {
    if ws == [] then 0
    else CountReads(ws[..|ws| - 1]) + if ws[|ws| - 1].read then 1 else 0
  }

  lemma {:induction false} CountIssued(q: Req, ws: seq<Cmd>, at: nat)
    requires forall k | 0 <= k < |ws| :: ws[k].read == (at + k >= q.txLen)
    ensures CountReads(ws) == Reads(q, at + |ws|) - Reads(q, at)
    decreases |ws|
  {
    if ws != [] {
      CountIssued(q, ws[..|ws| - 1], at);
    }
  }

  /**
   Bytes stored, bytes in the receive FIFO and reads still in the command FIFO add up to the reads issued,
   which never exceed rxLen; so every store lands between txLen and txLen + rxLen. Neither FIFO overflows.
  */
  lemma ReceiveConserves(s: Sys, committed: seq<Req>)
    requires Inv(s, committed) && s.running && s.hw.abort == 0
    ensures var t := Current(s);
            && (t.rxIdx - t.req.txLen) + |s.hw.rx| + CountReads(s.hw.tx) == Reads(t.req, t.txIdx) <= t.req.rxLen
            && t.rxIdx + |s.hw.rx| <= Total(t.req) <= |t.buf| && |s.hw.tx| <= FIFO_DEPTH
  {
    var t := Current(s);
    DrainFits(t, s.hw);
    var ws := s.hw.wire + s.hw.tx;
    forall k | 0 <= k < |s.hw.tx| ensures s.hw.tx[k].read == (|s.hw.wire| + k >= t.req.txLen) {
      assert s.hw.tx[k] == ws[|s.hw.wire| + k];
    }
    CountIssued(t.req, s.hw.tx, |s.hw.wire|);
  }

  // ---- When the routine is called, and what for ----

  /** TX_EMPTY is let through exactly while words are left to push, so it neither fires for nothing nor stays away. */
  predicate Masked(s: Sys)
    requires Slots(s)
  {
    var t := Current(s);
    s.running && Total(t.req) > 0 ==> (s.hw.txEmptyOn <==> t.txIdx < Total(t.req))
  }

  lemma EndMasks(s: Sys, e: Step, committed: seq<Req>)
    requires Inv(s, committed) && Allowed(s, e) && Ends(s, e)
    ensures Masked(Next(s, e))
  {
    match e
    case Irq(cb) => DoneShape(s, s.hw.abort, cb);
    case StopPhase(cb) => {
      DrainSameQueue(s);
      DrainKeeps(s);
      DoneShape(if Current(s).req.action.Recv? then Drain(s) else s, 0, cb);
    }
    case _ =>
  }

  lemma FillMasks(s: Sys)
    requires Slots(s) && s.running && Transfer(Current(s), s.hw) && Masked(s)
    ensures Masked(Fill(s))
  {
  }

  lemma RequestMasks(s: Sys, q: Req)
    requires Ring(s) && (s.running <==> s.count > 0) && Legal(q) && s.count < 2 && Masked(s)
    ensures Masked(Next(s, Request(q)))
  {
    CommitExact(s, q);
  }

  /** The index and the mask stay as they are. */
  lemma SameMask(s: Sys, n: Sys)
    requires Slots(s) && Slots(n) && Masked(s) && n.running == s.running && n.hw.txEmptyOn == s.hw.txEmptyOn
    requires Current(n).req == Current(s).req && Current(n).txIdx == Current(s).txIdx
    ensures Masked(n)
  {
  }

  lemma OthersMask(s: Sys, e: Step)
    requires Slots(s) && Masked(s) && !e.Request? && !e.TxPhase? && !Ends(s, e)
    requires s.running ==> Transfer(Current(s), s.hw)
    requires !s.running ==> s.pc.Out?
    ensures Masked(Next(s, e))
  {
    if e.RxPhase? && s.pc.AtRx? {
      DrainKeeps(s);
    }
    SameMask(s, Next(s, e));
  }

  lemma NextMasks(s: Sys, e: Step, committed: seq<Req>)
    requires Inv(s, committed) && Allowed(s, e) && Masked(s)
    ensures Masked(Next(s, e))
  {
    if Ends(s, e) {
      EndMasks(s, e, committed);
    } else if e.Request? {
      assert Legal([e.q][0]);
      RequestMasks(s, e.q);
    } else if e.TxPhase? {
      if s.running && s.pc.AtTx? {
        FillMasks(s);
      }
    } else {
      OthersMask(s, e);
    }
  }

  lemma {:induction false} RunMasks(s: Sys, es: seq<Step>, committed: seq<Req>)
    requires Inv(s, committed) && AllowedRun(s, es) && Masked(s)
    ensures Masked(Run(s, es))
    decreases |es|
  {
    if es != [] {
      NextMasks(s, es[0], committed);
      NextKeeps(s, es[0], committed);
      RunMasks(Next(s, es[0]), es[1..], committed + Adds(s, es[0]));
    }
  }

  lemma MaskedAlways(es: seq<Step>)
    requires AllowedRun(Start(), es)
    ensures Masked(Run(Start(), es))
  {
    StartIsInv();
    RunMasks(Start(), es, []);
  }

  /**
   What one call does to the FIFOs while nothing moves on the bus: a receive FIFO with six bytes or more is emptied, a
   command FIFO with two words or fewer gets as many as one call pushes, unless TX_EMPTY is masked.
  */
  lemma PhasesExactly(s: Sys, cb: seq<Req>, committed: seq<Req>)
    requires Inv(s, committed) && s.running && s.pc.Out? && s.hw.abort == 0 && Current(s).req.action.Recv?
    ensures var r := Next(Next(s, Irq(cb)), RxPhase);
            var t := Next(r, TxPhase);
            && r.hw.rx == (if |s.hw.rx| >= RX_TL then [] else s.hw.rx)
            && |t.hw.tx| == |s.hw.tx| + if s.hw.txEmptyOn && |s.hw.tx| <= TX_TL then Room(Current(r), |r.hw.rx|) else 0
  {
    var e := Next(s, Irq(cb));
    IrqKeepsTransfer(s, cb, committed);
    DrainKeeps(e);
  }

  lemma IrqKeepsTransfer(s: Sys, cb: seq<Req>, committed: seq<Req>)
    requires Inv(s, committed) && s.running && s.pc.Out? && s.hw.abort == 0
    ensures var e := Next(s, Irq(cb));
            && Transfer(Current(e), e.hw) && Current(e).req == Current(s).req
            && e.pc == AtRx(RxFull(s.hw), TxEmpty(s.hw)) && e.hw == s.hw.(stopDet := false)
  {
    SampleKeeps(Current(s), s.hw);
  }

  // ---- How many answers can be outstanding ----

  /** The reads whose answers are in the receive FIFO or still to come. */
  function Unread(hw: Hw): nat { |hw.rx| + CountReads(hw.tx) }

  lemma {:induction false} CountReadsConcat(a: seq<Cmd>, b: seq<Cmd>)
    ensures CountReads(a + b) == CountReads(a) + CountReads(b)
    decreases |b|
  {
    if b == [] {
      assert a + b == a;
    } else {
      assert (a + b)[..|a + b| - 1] == a + b[..|b| - 1];
      CountReadsConcat(a, b[..|b| - 1]);
    }
  }

  lemma {:induction false} CountReadsAtMost(ws: seq<Cmd>)
    ensures CountReads(ws) <= |ws|
    decreases |ws|
  {
    if ws != [] {
      CountReadsAtMost(ws[..|ws| - 1]);
    }
  }

  /** The receive loop counts the bytes in the receive FIFO, but not the reads it has already sent. */
  predicate Bounded(hw: Hw) { |hw.rx| <= FIFO_DEPTH && Unread(hw) <= FIFO_DEPTH + TX_TL }

  lemma FillBounded(t: Task, hw: Hw, ws: seq<Cmd>)
    requires Transfer(t, hw) && Bounded(hw) && |hw.tx| <= TX_TL && |ws| == Room(t, |hw.rx|)
    ensures Bounded(Push(hw, ws))
  {
    DrainFits(t, hw);
    CountReadsConcat(hw.tx, ws);
    CountReadsAtMost(hw.tx);
    CountReadsAtMost(ws);
  }

  lemma ExecBounded(hw: Hw, b: Byte)
    requires Bounded(hw) && CanExec(hw)
    ensures Bounded(ExecOne(hw, b)) && Unread(ExecOne(hw, b)) == Unread(hw)
  {
    var w := hw.tx[0];
    assert hw.tx == [w] + hw.tx[1..];
    CountReadsConcat([w], hw.tx[1..]);
    assert CountReads([w]) == CountReads([w][..0]) + if w.read then 1 else 0;
  }

  /** Whatever the finished task was, its end resets the controller. */
  lemma DoneResets(s: Sys, errcode: nat, cb: seq<Req>)
    requires Slots(s)
    ensures NextTask(DoneTask(s, errcode, cb)).hw == Reset() && Bounded(Reset())
  {
  }

  lemma StopBounded(s: Sys, cb: seq<Req>)
    requires Slots(s) && Bounded(s.hw)
    ensures Bounded(Finish(s, cb).hw)
  {
    DoneResets(if Current(s).req.action.Recv? then Drain(s) else s, 0, cb);
  }

  lemma NextBounded(s: Sys, e: Step, committed: seq<Req>)
    requires Inv(s, committed) && Allowed(s, e) && Bounded(s.hw)
    ensures Bounded(Next(s, e).hw)
  {
    match e
    case TxPhase =>
      if s.pc.AtTx? && s.pc.empty && s.running {
        var t := Current(s);
        FillBounded(t, s.hw, Words(t, t.txIdx, t.txIdx, Room(t, |s.hw.rx|)));
      }
    case Exec(b) =>
      if s.running && CanExec(s.hw) {
        ExecBounded(s.hw, b);
      }
    case Irq(cb) => DoneResets(s, s.hw.abort, cb);
    case StopPhase(cb) => StopBounded(s, cb);
    case _ =>
  }

  lemma {:induction false} RunBounded(s: Sys, es: seq<Step>, committed: seq<Req>)
    requires Inv(s, committed) && AllowedRun(s, es) && Bounded(s.hw)
    ensures Bounded(Run(s, es).hw)
    decreases |es|
  {
    if es != [] {
      NextBounded(s, es[0], committed);
      NextKeeps(s, es[0], committed);
      RunBounded(Next(s, es[0]), es[1..], committed + Adds(s, es[0]));
    }
  }

  /** Over every allowed run: at most two answers more than the receive FIFO holds are outstanding at any time. */
  lemma OutstandingBound(es: seq<Step>)
    requires AllowedRun(Start(), es)
    ensures Unread(Run(Start(), es).hw) <= FIFO_DEPTH + TX_TL
  {
    StartIsInv();
    RunBounded(Start(), es, []);
  }

  /** A request for no bytes at all puts no word on the bus, so no STOP ever comes and nothing finishes any more. */
  lemma {:induction false} EmptyTransferWedges(s: Sys, es: seq<Step>, committed: seq<Req>)
    requires Inv(s, committed) && AllowedRun(s, es)
    requires s.running && Total(Current(s).req) == 0 && s.hw.abort == 0 && !s.hw.stopDet && !Current(s).stopSeen
    ensures var r := Run(s, es); Slots(r) && r.running && r.log == s.log && Current(r).req == Current(s).req
    decreases |es|
  {
    if es != [] {
      var r := Next(s, es[0]);
      NextKeeps(s, es[0], committed);
      EmptyStep(s, es[0]);
      EmptyTransferWedges(r, es[1..], committed + Adds(s, es[0]));
    }
  }

  lemma EmptyStep(s: Sys, e: Step)
    requires Ring(s) && s.running && 0 < s.count && Transfer(Current(s), s.hw) && Allowed(s, e)
    requires Total(Current(s).req) == 0 && s.hw.abort == 0 && !s.hw.stopDet && !Current(s).stopSeen
    ensures var r := Next(s, e);
            && Slots(r) && r.running && r.log == s.log && Current(r).req == Current(s).req
            && r.hw.abort == 0 && !r.hw.stopDet && !Current(r).stopSeen
  {
    assert s.hw.tx == [];
    if e.Request? {
      assert Legal([e.q][0]);
      CommitExact(s, e.q);
    }
  }

  // ---- Every transfer that asks for anything can finish ----

  /** A task under way, between two interrupts. */
  predicate Waiting(s: Sys, committed: seq<Req>) {
    Inv(s, committed) && s.running && s.pc.Out? && s.hw.abort == 0 && Total(Current(s).req) > 0
  }

  /** The first half of an undisturbed interrupt. */
  lemma QuietReceive(s: Sys, committed: seq<Req>)
    requires Waiting(s, committed)
    ensures var r := Next(Next(s, Irq([])), RxPhase);
            && Inv(r, committed) && r.running && r.pc == AtTx(TxEmpty(s.hw)) && r.log == s.log
            && Current(r).req == Current(s).req && Current(r).txIdx == Current(s).txIdx
            && Current(r).stopSeen == s.hw.stopDet
            && r.hw == s.hw.(stopDet := false,
                             rx := if RxFull(s.hw) && Current(s).req.action.Recv? then [] else s.hw.rx)
  {
    var s1 := Next(s, Irq([]));
    assert committed + [] == committed;
    IrqKeeps(s, [], committed);
    RxKeeps(s1, committed);
    DrainFits(Current(s1), s1.hw);
    AfterRx(s1);
  }

  lemma QuietSend(s: Sys, committed: seq<Req>)
    requires Inv(s, committed) && s.running && s.pc.AtTx? && !s.hw.stopDet && !Current(s).stopSeen
    requires s.hw.abort == 0 && Total(Current(s).req) > 0
    ensures var r := Next(Next(s, TxPhase), StopPhase([]));
            && Waiting(r, committed) && r.log == s.log && Current(r).req == Current(s).req
            && r.hw.wire == s.hw.wire && r.hw.rx == s.hw.rx && !r.hw.stopDet
            && Current(r).txIdx == Current(s).txIdx + if s.pc.empty then Room(Current(s), |s.hw.rx|) else 0
  {
    var s1 := Next(s, TxPhase);
    TxKeeps(s, committed);
    AfterTx(s);
    assert committed + [] == committed;
    StopKeeps(s1, [], committed);
  }

  function Interrupt(): seq<Step> { [Irq([]), RxPhase, TxPhase, StopPhase([])] }

  /** One undisturbed interrupt without a STOP: it empties a full receive FIFO and refills the command FIFO. */
  lemma QuietInterrupt(s: Sys, committed: seq<Req>)
    requires Waiting(s, committed) && !s.hw.stopDet
    ensures AllowedRun(s, Interrupt())
    ensures var r := Run(s, Interrupt());
            && Waiting(r, committed) && r.log == s.log && Current(r).req == Current(s).req && r.hw.wire == s.hw.wire
            && r.hw.rx == (if RxFull(s.hw) && Current(s).req.action.Recv? then [] else s.hw.rx)
            && Current(r).txIdx == Current(s).txIdx + if TxEmpty(s.hw) then Room(Current(s), |r.hw.rx|) else 0
  {
    var s2 := Next(Next(s, Irq([])), RxPhase);
    QuietReceive(s, committed);
    QuietSend(s2, committed);
    QuietIsAllowed(s, committed);
    FourSteps(s, Irq([]), RxPhase, TxPhase, StopPhase([]));
    assert Room(Current(s2), |s2.hw.rx|) == Room(Current(s), |s2.hw.rx|);
  }

  lemma FourSteps(s: Sys, a: Step, b: Step, c: Step, d: Step)
    requires Slots(s)
    ensures Run(s, [a, b, c, d]) == Next(Next(Next(Next(s, a), b), c), d)
    ensures AllowedRun(s, [a, b, c, d]) <==>
              && Allowed(s, a) && Allowed(Next(s, a), b) && Allowed(Next(Next(s, a), b), c)
              && Allowed(Next(Next(Next(s, a), b), c), d)
  {
    var s1, s2, s3 := Next(s, a), Next(Next(s, a), b), Next(Next(Next(s, a), b), c);
    assert [a, b, c, d][1..] == [b, c, d] && [b, c, d][1..] == [c, d] && [c, d][1..] == [d] && [d][1..] == [];
    assert Run(s, [a, b, c, d]) == Run(s1, [b, c, d]);
    assert Run(s1, [b, c, d]) == Run(s2, [c, d]);
    assert Run(s2, [c, d]) == Run(s3, [d]);
    assert Run(s3, [d]) == Run(Next(s3, d), []);
    assert AllowedRun(s3, [d]) == Allowed(s3, d);
    assert AllowedRun(s2, [c, d]) == (Allowed(s2, c) && AllowedRun(s3, [d]));
    assert AllowedRun(s1, [b, c, d]) == (Allowed(s1, b) && AllowedRun(s2, [c, d]));
  }

  lemma AfterRx(s: Sys)
    requires Slots(s) && s.pc.AtRx? && |s.hw.rx| <= Current(s).req.rxLen
    ensures var r := Next(s, RxPhase);
            && r.pc == AtTx(s.pc.empty) && r.log == s.log && r.running == s.running && r.count == s.count
            && Current(r).req == Current(s).req && Current(r).txIdx == Current(s).txIdx
            && Current(r).stopSeen == Current(s).stopSeen
            && r.hw == s.hw.(rx := if s.pc.full && Current(s).req.action.Recv? then [] else s.hw.rx)
  {
    DrainIsReadOut(s);
  }

  lemma AfterTx(s: Sys)
    requires Slots(s) && s.pc.AtTx? && Transfer(Current(s), s.hw)
    ensures var r := Next(s, TxPhase);
            && r.pc == AtStop && r.log == s.log && r.running == s.running && r.count == s.count
            && Current(r).req == Current(s).req && Current(r).stopSeen == Current(s).stopSeen
            && r.hw.wire == s.hw.wire && r.hw.rx == s.hw.rx && r.hw.abort == s.hw.abort
            && r.hw.stopDet == s.hw.stopDet
            && Current(r).txIdx == Current(s).txIdx + if s.pc.empty then Room(Current(s), |s.hw.rx|) else 0
  {
  }

  /** The log has grown by the task now current, and it ended without error. */
  predicate EndsWell(s: Sys, log: seq<Done>)
    requires Slots(s)
  {
    && |log| == |s.log| + 1 && log[..|s.log|] == s.log
    && log[|s.log|].req == Current(s).req && log[|s.log|].errcode == 0
  }

  lemma FinishLogs(s: Sys)
    requires Slots(s) && s.pc.AtStop? && Current(s).stopSeen && Transfer(Current(s), s.hw)
    ensures EndsWell(s, Next(s, StopPhase([])).log)
  {
    DrainKeeps(s);
  }

  lemma LastSend(s: Sys, committed: seq<Req>)
    requires Inv(s, committed) && s.running && s.pc.AtTx? && Current(s).stopSeen
    ensures EndsWell(s, Next(Next(s, TxPhase), StopPhase([])).log)
  {
    TxKeeps(s, committed);
    AfterTx(s);
    FinishLogs(Next(s, TxPhase));
  }

  lemma LastInterrupt(s: Sys, committed: seq<Req>)
    requires Waiting(s, committed) && s.hw.stopDet
    ensures AllowedRun(s, Interrupt())
    ensures EndsWell(s, Run(s, Interrupt()).log)
  {
    QuietReceive(s, committed);
    LastSend(Next(Next(s, Irq([])), RxPhase), committed);
    QuietIsAllowed(s, committed);
    FourSteps(s, Irq([]), RxPhase, TxPhase, StopPhase([]));
  }

  /** Handlers that commit nothing are allowed to. */
  lemma QuietIsAllowed(s: Sys, committed: seq<Req>)
    requires Waiting(s, committed)
    ensures Allowed(s, Irq([])) && Allowed(Next(Next(Next(s, Irq([])), RxPhase), TxPhase), StopPhase([]))
  {
    var s1 := Next(s, Irq([]));
    assert committed + [] == committed;
    IrqKeeps(s, [], committed);
    RxKeeps(s1, committed);
    TxKeeps(Next(s1, RxPhase), committed);
  }

  lemma {:induction false} RunSplit(s: Sys, a: seq<Step>, b: seq<Step>)
    requires Slots(s)
    ensures Run(s, a + b) == Run(Run(s, a), b)
    ensures AllowedRun(s, a + b) <==> AllowedRun(s, a) && AllowedRun(Run(s, a), b)
    decreases |a|
  {
    if a == [] {
      assert a + b == b;
    } else {
      assert (a + b)[0] == a[0] && (a + b)[1..] == a[1..] + b;
      RunSplit(Next(s, a[0]), a[1..], b);
    }
  }

  lemma RunOne(s: Sys, e: Step)
    requires Slots(s)
    ensures Run(s, [e]) == Next(s, e) && (AllowedRun(s, [e]) <==> Allowed(s, e))
  {
    assert Run(s, [e]) == Run(Next(s, e), [e][1..]);
    assert AllowedRun(s, [e]) == (Allowed(s, e) && AllowedRun(Next(s, e), [e][1..]));
  }

  /** If the bus cannot move on, an interrupt makes it: it empties the receive FIFO or supplies words. */
  lemma StuckBusIsServed(s: Sys, committed: seq<Req>)
    requires Waiting(s, committed) && !s.hw.stopDet && !CanExec(s.hw)
    ensures var t := Current(s);
            || (RxFull(s.hw) && t.req.action.Recv?)
            || (TxEmpty(s.hw) && Room(t, |s.hw.rx|) > 0 && t.txIdx < Total(t.req))
  {
    var t := Current(s);
    if s.hw.tx != [] {
      var i := |s.hw.wire|;
      assert (s.hw.wire + s.hw.tx)[i] == s.hw.tx[0];
      assert WordOk(t.req, s.hw.tx[0], i);
    }
  }

  /** Any task under way that asks for at least one byte can run to its end; so only empty requests wedge. */
  lemma {:induction false} NonEmptyTransferCanFinish(s: Sys, committed: seq<Req>) returns (es: seq<Step>)
    requires Waiting(s, committed)
    ensures AllowedRun(s, es)
    ensures EndsWell(s, Run(s, es).log)
    decreases Total(Current(s).req) - |s.hw.wire|, Total(Current(s).req) - Current(s).txIdx, |s.hw.rx|
  {
    if s.hw.stopDet {
      LastInterrupt(s, committed);
      return Interrupt();
    }
    var head := if CanExec(s.hw) then [Exec(0)] else Interrupt();
    if CanExec(s.hw) {
      BusKeeps(s, Exec(0), committed);
      RunOne(s, Exec(0));
    } else {
      StuckBusIsServed(s, committed);
      QuietInterrupt(s, committed);
    }
    var tail := NonEmptyTransferCanFinish(Run(s, head), committed);
    RunSplit(s, head, tail);
    es := head + tail;
  }

  // ---- The bound on outstanding answers is reached ----

  /** A task that only reads, under way, and not at its last word. */
  predicate Reading(s: Sys, committed: seq<Req>) {
    Waiting(s, committed) && Current(s).req.txLen == 0 && |s.hw.wire| < Total(Current(s).req)
  }

  /** n reads have been executed. */
  predicate HasRead(s: Sys, r: Sys, n: nat, committed: seq<Req>)
    requires Slots(s) && Slots(r)
  {
    && Reading(r, committed) && Current(r) == Current(s) && |r.hw.wire| == |s.hw.wire| + n
    && |r.hw.tx| == |s.hw.tx| - n && |r.hw.rx| == |s.hw.rx| + n
  }

  lemma ExecRead(s: Sys, committed: seq<Req>)
    requires Reading(s, committed) && s.hw.tx != [] && |s.hw.rx| < FIFO_DEPTH
    requires |s.hw.wire| + 1 < Total(Current(s).req)
    ensures HasRead(s, Next(s, Exec(0)), 1, committed)
  {
    var i := |s.hw.wire|;
    assert (s.hw.wire + s.hw.tx)[i] == s.hw.tx[0];
    assert WordOk(Current(s).req, s.hw.tx[0], i);
    BusKeeps(s, Exec(0), committed);
  }

  lemma ReadsAdd(s: Sys, mid: Sys, r: Sys, m: nat, n: nat, committed: seq<Req>)
    requires Slots(s) && Slots(mid) && Slots(r) && HasRead(s, mid, m, committed) && HasRead(mid, r, n, committed)
    ensures HasRead(s, r, m + n, committed)
  {
  }

  function ReadTwice(s: Sys): (r: Sys)
    requires Slots(s)
    ensures Slots(r)
  {
    Next(Next(s, Exec(0)), Exec(0))
  }

  lemma ExecTwo(s: Sys, committed: seq<Req>)
    requires Reading(s, committed) && |s.hw.tx| >= 2 && |s.hw.rx| + 2 <= FIFO_DEPTH
    requires |s.hw.wire| + 2 < Total(Current(s).req)
    ensures HasRead(s, ReadTwice(s), 2, committed)
  {
    var mid := Next(s, Exec(0));
    ExecRead(s, committed);
    ExecRead(mid, committed);
    ReadsAdd(s, mid, ReadTwice(s), 1, 1, committed);
  }

  function Execs(): seq<Step> { [Exec(0), Exec(0), Exec(0), Exec(0)] }

  lemma ExecFour(s: Sys, committed: seq<Req>)
    requires Reading(s, committed) && |s.hw.tx| >= 4 && |s.hw.rx| + 4 <= FIFO_DEPTH
    requires |s.hw.wire| + 4 < Total(Current(s).req)
    ensures AllowedRun(s, Execs()) && HasRead(s, Run(s, Execs()), 4, committed)
  {
    var mid := ReadTwice(s);
    ExecTwo(s, committed);
    ExecTwo(mid, committed);
    ReadsAdd(s, mid, ReadTwice(mid), 2, 2, committed);
    FourSteps(s, Exec(0), Exec(0), Exec(0), Exec(0));
  }

  lemma ReadingInterrupt(s: Sys, committed: seq<Req>)
    requires Reading(s, committed)
    ensures AllowedRun(s, Interrupt())
    ensures var r := Run(s, Interrupt());
            && Reading(r, committed) && Current(r).req == Current(s).req && r.hw.wire == s.hw.wire
            && r.hw.rx == (if RxFull(s.hw) && Current(s).req.action.Recv? then [] else s.hw.rx)
            && Current(r).txIdx == Current(s).txIdx + if TxEmpty(s.hw) then Room(Current(s), |r.hw.rx|) else 0
  {
    QuietInterrupt(s, committed);
  }

  /** A request for twenty bytes. */
  function Twenty(): Req { Req(seq(20, _ => 0), 0, 20, Recv, false, 0) }

  lemma AfterFirstBurst(s: Sys, committed: seq<Req>)
    requires Reading(s, committed) && Current(s) == Fresh(Twenty()) && s.hw == Reset()
    ensures var es := Interrupt() + Execs();
            var r := Run(s, es);
            && AllowedRun(s, es) && Reading(r, committed) && Current(r).req == Twenty() && Current(r).txIdx == 6
            && |r.hw.wire| == |r.hw.rx| == 4 && |r.hw.tx| == 2
  {
    var r := Run(s, Interrupt());
    ReadingInterrupt(s, committed);
    ExecFour(r, committed);
    RunSplit(s, Interrupt(), Execs());
  }

  lemma SecondBurst(s: Sys, committed: seq<Req>)
    requires Reading(s, committed) && Current(s).req == Twenty() && Current(s).txIdx == 6
    requires |s.hw.wire| == |s.hw.rx| == 4 && |s.hw.tx| == 2
    ensures AllowedRun(s, Interrupt()) && Unread(Run(s, Interrupt()).hw) == FIFO_DEPTH + TX_TL
  {
    var r := Run(s, Interrupt());
    ReadingInterrupt(s, committed);
    assert TxEmpty(s.hw) && Room(Current(s), 4) == 4;
    DrainFits(Current(r), r.hw);
    ReceiveConserves(r, committed);
  }

  /**
   Two bursts of reads with four answers between them: ten are outstanding, two more than fit. Only a bus that waits
   while the receive FIFO is full, as this one does, loses none of them.
  */
  lemma BoundIsReached() returns (es: seq<Step>)
    ensures AllowedRun(Start(), es) && Unread(Run(Start(), es).hw) == FIFO_DEPTH + TX_TL > FIFO_DEPTH
  {
    var q, first := Twenty(), Interrupt() + Execs();
    var s := Next(Start(), Request(q));
    StartIsInv();
    RequestKeeps(Start(), q, []);
    assert [] + [q] == [q];
    RunOne(Start(), Request(q));
    AfterFirstBurst(s, [q]);
    SecondBurst(Run(s, first), [q]);
    RunSplit(s, first, Interrupt());
    es := [Request(q)] + (first + Interrupt());
    RunSplit(Start(), [Request(q)], first + Interrupt());
  }
}
