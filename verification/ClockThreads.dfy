/**
 Requests for the system frequency from several threads at once. app_sysfreq_req of apps/common/app_utils.c takes no
 lock of its own: it is a series of calls into platform/hal/hal_cmu.c and hal_sysfreq.c, each of which locks out
 interrupts and so is one step here.
*/
module ClockThreads {
  import opened Clock

  /** A locked call of hal_cmu.c. */
  datatype Micro = On(p: Pll, u: PllUser) | Off(p: Pll, u: PllUser) | Select(p: Pll)

  function Exec(s: State, m: Micro): (r: State)
    ensures r.votes == s.votes && r.cur == s.cur && r.top == s.top
  {
    match m
    case On(p, u) => Enable(s, p, u)
    case Off(p, u) => Disable(s, p, u)
    case Select(p) => SelectPll(s, p)
  }

  function ExecAll(s: State, ms: seq<Micro>): (r: State)
    ensures r.votes == s.votes && r.cur == s.cur && r.top == s.top
    decreases |ms|
  {
    if ms == [] then s else ExecAll(Exec(s, ms[0]), ms[1..])
  }

  /** hal_cmu_low_freq_mode_enable */
  function ToSlow(): seq<Micro> {
    [On(AUD, SWITCH), On(USB, SWITCH), Select(USB), Off(AUD, SWITCH), Off(USB, SWITCH), Off(AUD, SYS)]
  }

  /** hal_cmu_low_freq_mode_disable */
  function ToFast(): seq<Micro> {
    [On(AUD, SYS), On(AUD, SWITCH), On(USB, SWITCH), Select(AUD), Off(AUD, SWITCH), Off(USB, SWITCH)]
  }

  /** What a thread does behind the calls it is in: `was` is the frequency it read on entry. */
  datatype After = Rest | ThenRequest(user: nat, freq: nat, was: nat) | ThenTest(was: nat)

  datatype Thread = Thread(todo: seq<Micro>, after: After)

  datatype Sys = Sys(s: State, threads: seq<Thread>)

  /** A thread enters app_sysfreq_req, or goes on in it; or a driver calls hal_sysfreq_req or the PLL functions. */
  datatype Act = Call(t: nat, user: nat, freq: nat) | Go(t: nat) | Driver(e: Step)

  predicate Idle(th: Thread) { th == Thread([], Rest) }

  /** The first read and test. */
  function Enter(s: State, user: nat, freq: nat): Thread {
    Thread(if s.cur <= FREQ_52M && freq > FREQ_52M then ToFast() else [], ThenRequest(user, freq, s.cur))
  }

  function Goto(c: Sys, s: State, t: nat, th: Thread): Sys
    requires t < |c.threads|
  {
    Sys(s, c.threads[t := th])
  }

  function Advance(c: Sys, t: nat): (r: Sys)
    requires t < |c.threads| && |c.s.votes| == USER_QTY
    ensures |r.s.votes| == USER_QTY && |r.threads| == |c.threads|
  {
    var th := c.threads[t];
    if th.todo != [] then Goto(c, Exec(c.s, th.todo[0]), t, Thread(th.todo[1..], th.after))
    else match th.after
      case Rest => c
      case ThenRequest(user, freq, was) => Goto(c, SysfreqReq(c.s, user, freq), t, Thread([], ThenTest(was)))
      case ThenTest(was) =>
        Goto(c, c.s, t, Thread(if was > FREQ_52M && c.s.cur <= FREQ_52M then ToSlow() else [], Rest))
  }

  function Next(c: Sys, a: Act): (r: Sys)
    requires |c.s.votes| == USER_QTY
    ensures |r.s.votes| == USER_QTY && |r.threads| == |c.threads|
  {
    match a
    case Call(t, user, freq) =>
      if t < |c.threads| && Idle(c.threads[t]) then Goto(c, c.s, t, Enter(c.s, user, freq)) else c
    case Go(t) => if t < |c.threads| then Advance(c, t) else c
    case Driver(e) => c.(s := Clock.Next(c.s, e))
  }

  /** The programs threads are in. */
  predicate Known(m: Micro) { m in ToSlow() || m in ToFast() }

  predicate Programs(c: Sys) {
    forall t | 0 <= t < |c.threads| :: forall i | 0 <= i < |c.threads[t].todo| :: Known(c.threads[t].todo[i])
  }

  /** Drivers call what they may. */
  predicate Proper(a: Act) { a.Driver? ==> !a.e.App? && Allowed(a.e) }

  // ---- Exactly when a step is safe ----

  /**
   The three steps that can go wrong: moving the mux while a PLL is off, or to the slow clock at a fast frequency; SYS
   letting go of the audio PLL at a fast frequency; and raising the frequency before mux and audio PLL are ready.
  */
  predicate RightMicro(s: State, m: Micro) {
    match m
    case On(_, _) => true
    case Off(p, u) => p == AUD && u == SYS ==> s.cur <= FREQ_52M
    case Select(p) => s.audOn && s.usbOn && (p == USB ==> s.cur <= FREQ_52M)
  }

  predicate RightRequest(s: State, user: nat, freq: nat) {
    user < USER_QTY && FREQ_52M < freq < FREQ_QTY ==> s.mux == AUD && SYS in s.audUsers
  }

  predicate Right(c: Sys, a: Act) {
    a.Go? && a.t < |c.threads| ==>
      var th := c.threads[a.t];
      if th.todo != [] then RightMicro(c.s, th.todo[0])
      else th.after.ThenRequest? ==> RightRequest(c.s, th.after.user, th.after.freq)
  }

  lemma MicroExact(s: State, m: Micro)
    requires Safe(s) && Known(m)
    ensures Safe(Exec(s, m)) <==> RightMicro(s, m)
  {
    match m
    case On(p, u) => MicroKeepsConsistent(s, p, u);
    case Off(p, u) =>
      MicroKeepsConsistent(s, p, u);
      assert u != SYS && SYS in s.audUsers ==> SYS in s.audUsers - {u};
    case Select(p) =>
  }

  lemma MicroKeepsConsistent(s: State, p: Pll, u: PllUser)
    requires Consistent(s, AUD) && Consistent(s, USB) && u != INIT
    ensures Consistent(Enable(s, p, u), AUD) && Consistent(Enable(s, p, u), USB)
    ensures Consistent(Disable(s, p, u), AUD) && Consistent(Disable(s, p, u), USB)
  {
    UsersKeepConsistent(s, p, AUD, u);
    UsersKeepConsistent(s, p, USB, u);
  }

  lemma RequestExact(s: State, user: nat, freq: nat)
    requires Safe(s)
    ensures Safe(SysfreqReq(s, user, freq)) <==> RightRequest(s, user, freq)
  {
    VotesAreServed(s, user, freq);
    VotesLeavePlls(s, user, freq);
  }

  lemma ProgramsStay(c: Sys, a: Act)
    requires |c.s.votes| == USER_QTY && Programs(c)
    ensures Programs(Next(c, a))
  {
    var r := Next(c, a);
    forall t | 0 <= t < |r.threads|
      ensures forall i | 0 <= i < |r.threads[t].todo| :: Known(r.threads[t].todo[i])
    {
      assert forall i | 0 <= i < |c.threads[t].todo| :: Known(c.threads[t].todo[i]);
      assert forall i | 0 <= i < 6 :: Known(ToSlow()[i]) && Known(ToFast()[i]);
    }
  }

  /** A step is safe exactly if it is right. */
  lemma NextExact(c: Sys, a: Act)
    requires Safe(c.s) && Programs(c) && Proper(a)
    ensures Programs(Next(c, a))
    ensures Safe(Next(c, a).s) <==> Right(c, a)
  {
    ProgramsStay(c, a);
    match a
    case Call(_, _, _) =>
    case Driver(e) => NextIsSafe(c.s, e);
    case Go(t) =>
      if t < |c.threads| {
        var th := c.threads[t];
        if th.todo != [] {
          assert Known(th.todo[0]);
          MicroExact(c.s, th.todo[0]);
        } else if th.after.ThenRequest? {
          RequestExact(c.s, th.after.user, th.after.freq);
        }
      }
  }

  function Run(c: Sys, acts: seq<Act>): (r: Sys)
    requires |c.s.votes| == USER_QTY
    ensures |r.s.votes| == USER_QTY && |r.threads| == |c.threads|
    decreases |acts|
  {
    if acts == [] then c else Run(Next(c, acts[0]), acts[1..])
  }

  predicate RightRun(c: Sys, acts: seq<Act>)
    requires |c.s.votes| == USER_QTY
    decreases |acts|
  {
    acts == [] || (Right(c, acts[0]) && RightRun(Next(c, acts[0]), acts[1..]))
  }

  predicate AlwaysSafe(c: Sys, acts: seq<Act>)
    requires |c.s.votes| == USER_QTY
    decreases |acts|
  {
    Safe(c.s) && (acts == [] || AlwaysSafe(Next(c, acts[0]), acts[1..]))
  }

  /** Any number of threads in any interleaving: every state is safe exactly if every step is right. */
  lemma {:induction false} RunExact(c: Sys, acts: seq<Act>)
    requires Safe(c.s) && Programs(c) && forall i | 0 <= i < |acts| :: Proper(acts[i])
    ensures AlwaysSafe(c, acts) <==> RightRun(c, acts)
    decreases |acts|
  {
    if acts != [] {
      NextExact(c, acts[0]);
      if Right(c, acts[0]) {
        RunExact(Next(c, acts[0]), acts[1..]);
      } else {
        assert !Safe(Next(c, acts[0]).s);
      }
    }
  }

  // ---- One request at a time ----

  predicate RightAll(s: State, ms: seq<Micro>)
    decreases |ms|
  {
    ms == [] || (RightMicro(s, ms[0]) && RightAll(Exec(s, ms[0]), ms[1..]))
  }

  lemma SixMicros(s: State, a: Micro, b: Micro, c: Micro, d: Micro, e: Micro, f: Micro)
    ensures var s1, s2 := Exec(s, a), Exec(Exec(s, a), b);
            var s3, s4 := Exec(s2, c), Exec(Exec(s2, c), d);
            var s5 := Exec(s4, e);
            && ExecAll(s, [a, b, c, d, e, f]) == Exec(s5, f)
            && (RightAll(s, [a, b, c, d, e, f]) <==>
                  RightMicro(s, a) && RightMicro(s1, b) && RightMicro(s2, c) && RightMicro(s3, d) && RightMicro(s4, e)
                  && RightMicro(s5, f))
  {
    var s3 := Exec(Exec(Exec(s, a), b), c);
    ThreeMicros(s, a, b, c, [d, e, f]);
    ThreeMicros(s3, d, e, f, []);
    assert [a, b, c] + [d, e, f] == [a, b, c, d, e, f] && [d, e, f] + [] == [d, e, f];
  }

  lemma ThreeMicros(s: State, a: Micro, b: Micro, c: Micro, rest: seq<Micro>)
    ensures var s1, s2 := Exec(s, a), Exec(Exec(s, a), b);
            var s3 := Exec(s2, c);
            && ExecAll(s, [a, b, c] + rest) == ExecAll(s3, rest)
            && (RightAll(s, [a, b, c] + rest) <==>
                  RightMicro(s, a) && RightMicro(s1, b) && RightMicro(s2, c) && RightAll(s3, rest))
  {
    var ms := [a, b, c] + rest;
    assert ms[1..] == [b, c] + rest && ms[1..][1..] == [c] + rest && ms[1..][1..][1..] == rest;
    assert ExecAll(Exec(Exec(s, a), b), [c] + rest) == ExecAll(Exec(Exec(Exec(s, a), b), c), rest);
    assert ExecAll(Exec(s, a), [b, c] + rest) == ExecAll(Exec(Exec(s, a), b), [c] + rest);
    assert RightAll(Exec(Exec(s, a), b), [c] + rest)
        == (RightMicro(Exec(Exec(s, a), b), c) && RightAll(Exec(Exec(Exec(s, a), b), c), rest));
    assert RightAll(Exec(s, a), [b, c] + rest)
        == (RightMicro(Exec(s, a), b) && RightAll(Exec(Exec(s, a), b), [c] + rest));
  }

  lemma ToFastIsRight(s: State)
    requires Safe(s)
    ensures ExecAll(s, ToFast()) == LowFreqDisable(s) && RightAll(s, ToFast())
  {
    SixMicros(s, On(AUD, SYS), On(AUD, SWITCH), On(USB, SWITCH), Select(AUD), Off(AUD, SWITCH), Off(USB, SWITCH));
    var s1 := Enable(s, AUD, SYS);
    var s2 := Enable(s1, AUD, SWITCH);
    MicroKeepsConsistent(s, AUD, SYS);
    MicroKeepsConsistent(s1, AUD, SWITCH);
    MicroKeepsConsistent(s2, USB, SWITCH);
    var s3 := Enable(s2, USB, SWITCH);
    assert SWITCH in s3.audUsers && SWITCH in s3.usbUsers;
  }

  lemma ToSlowIs(s: State)
    ensures ExecAll(s, ToSlow()) == LowFreqEnable(s)
    ensures Safe(s) && s.cur <= FREQ_52M ==> RightAll(s, ToSlow())
  {
    SixMicros(s, On(AUD, SWITCH), On(USB, SWITCH), Select(USB), Off(AUD, SWITCH), Off(USB, SWITCH), Off(AUD, SYS));
    if Safe(s) {
      var s1 := Enable(s, AUD, SWITCH);
      MicroKeepsConsistent(s, AUD, SWITCH);
      MicroKeepsConsistent(s1, USB, SWITCH);
      var s2 := Enable(s1, USB, SWITCH);
      assert SWITCH in s2.audUsers && SWITCH in s2.usbUsers;
    }
  }

  function Gos(t: nat, n: nat): seq<Act> {
    if n == 0 then [] else [Go(t)] + Gos(t, n - 1)
  }

  /** A thread that is not interrupted finishes its calls. */
  lemma {:induction false} Finishes(c: Sys, t: nat)
    requires t < |c.threads| && |c.s.votes| == USER_QTY
    ensures var th := c.threads[t];
            && Run(c, Gos(t, |th.todo|)) == Goto(c, ExecAll(c.s, th.todo), t, Thread([], th.after))
            && (RightRun(c, Gos(t, |th.todo|)) <==> RightAll(c.s, th.todo))
    decreases |c.threads[t].todo|
  {
    var th := c.threads[t];
    if th.todo == [] {
      assert c.threads[t := th] == c.threads;
    } else {
      var n := Next(c, Go(t));
      Finishes(n, t);
      var g := Gos(t, |th.todo|);
      assert g[0] == Go(t) && g[1..] == Gos(t, |th.todo| - 1);
      assert n.threads[t := Thread([], th.after)] == c.threads[t := Thread([], th.after)];
    }
  }

  lemma {:induction false} RunSplit(c: Sys, a: seq<Act>, b: seq<Act>)
    requires |c.s.votes| == USER_QTY
    ensures Run(c, a + b) == Run(Run(c, a), b)
    ensures RightRun(c, a + b) <==> RightRun(c, a) && RightRun(Run(c, a), b)
    decreases |a|
  {
    if a == [] {
      assert a + b == b;
    } else {
      assert (a + b)[0] == a[0] && (a + b)[1..] == a[1..] + b;
      RunSplit(Next(c, a[0]), a[1..], b);
    }
  }

  lemma RunOne(c: Sys, a: Act)
    requires |c.s.votes| == USER_QTY
    ensures Run(c, [a]) == Next(c, a) && (RightRun(c, [a]) <==> Right(c, a))
  {
    assert [a][1..] == [];
  }

  /** From entry to the request. */
  function FirstHalf(s: State, t: nat, user: nat, freq: nat): seq<Act> {
    [Call(t, user, freq)] + Gos(t, |Enter(s, user, freq).todo|) + [Go(t)]
  }

  function AtRequest(s: State, user: nat, freq: nat): (r: State)
    requires |s.votes| == USER_QTY
    ensures |r.votes| == USER_QTY
  {
    SysfreqReq(if s.cur <= FREQ_52M && freq > FREQ_52M then LowFreqDisable(s) else s, user, freq)
  }

  /** From the second test on. */
  function SecondHalf(t: nat, slow: bool): seq<Act> { [Go(t)] + if slow then Gos(t, 6) else [] }

  /** These steps are right and come to r. */
  predicate Leads(c: Sys, acts: seq<Act>, r: Sys)
    requires |c.s.votes| == USER_QTY
  {
    Run(c, acts) == r && RightRun(c, acts)
  }

  lemma LeadsOn(c: Sys, a: seq<Act>, mid: Sys, b: seq<Act>, r: Sys)
    requires |c.s.votes| == USER_QTY && |mid.s.votes| == USER_QTY && Leads(c, a, mid) && Leads(mid, b, r)
    ensures Leads(c, a + b, r)
  {
    RunSplit(c, a, b);
  }

  lemma CallLeads(c: Sys, t: nat, user: nat, freq: nat)
    requires |c.s.votes| == USER_QTY && t < |c.threads| && Idle(c.threads[t])
    ensures Leads(c, [Call(t, user, freq)], Goto(c, c.s, t, Enter(c.s, user, freq)))
  {
    RunOne(c, Call(t, user, freq));
  }

  lemma MicrosLead(c: Sys, s: State, t: nat, todo: seq<Micro>, after: After, r: State)
    requires t < |c.threads| && |s.votes| == USER_QTY && RightAll(s, todo) && ExecAll(s, todo) == r
    ensures Leads(Goto(c, s, t, Thread(todo, after)), Gos(t, |todo|), Goto(c, r, t, Thread([], after)))
  {
    var c1 := Goto(c, s, t, Thread(todo, after));
    Finishes(c1, t);
    assert c1.threads[t := Thread([], after)] == c.threads[t := Thread([], after)];
  }

  lemma RequestLeads(c: Sys, s: State, t: nat, user: nat, freq: nat, was: nat)
    requires t < |c.threads| && |s.votes| == USER_QTY && RightRequest(s, user, freq)
    ensures Leads(Goto(c, s, t, Thread([], ThenRequest(user, freq, was))), [Go(t)],
                  Goto(c, SysfreqReq(s, user, freq), t, Thread([], ThenTest(was))))
  {
    var c1 := Goto(c, s, t, Thread([], ThenRequest(user, freq, was)));
    RunOne(c1, Go(t));
    assert c1.threads[t := Thread([], ThenTest(was))] == c.threads[t := Thread([], ThenTest(was))];
  }

  lemma FirstHalfRuns(c: Sys, t: nat, user: nat, freq: nat)
    requires Safe(c.s) && t < |c.threads| && Idle(c.threads[t])
    ensures Safe(AtRequest(c.s, user, freq))
    ensures Leads(c, FirstHalf(c.s, t, user, freq),
                  Goto(c, AtRequest(c.s, user, freq), t, Thread([], ThenTest(c.s.cur))))
  {
    var th := Enter(c.s, user, freq);
    var s2 := ExecAll(c.s, th.todo);
    EnterIsRight(c.s, user, freq);
    CallLeads(c, t, user, freq);
    MicrosLead(c, c.s, t, th.todo, th.after, s2);
    RequestLeads(c, s2, t, user, freq, c.s.cur);
    LeadsOn(c, [Call(t, user, freq)], Goto(c, c.s, t, th), Gos(t, |th.todo|), Goto(c, s2, t, Thread([], th.after)));
    LeadsOn(c, [Call(t, user, freq)] + Gos(t, |th.todo|), Goto(c, s2, t, Thread([], th.after)), [Go(t)],
            Goto(c, AtRequest(c.s, user, freq), t, Thread([], ThenTest(c.s.cur))));
  }

  lemma EnterIsRight(s: State, user: nat, freq: nat)
    requires Safe(s)
    ensures var r := ExecAll(s, Enter(s, user, freq).todo);
            && r == (if s.cur <= FREQ_52M && freq > FREQ_52M then LowFreqDisable(s) else s)
            && RightAll(s, Enter(s, user, freq).todo) && RightRequest(r, user, freq)
            && Safe(AtRequest(s, user, freq))
  {
    if s.cur <= FREQ_52M && freq > FREQ_52M {
      ToFastIsRight(s);
      LowFreqDisableIsSafe(s);
      RequestExact(LowFreqDisable(s), user, freq);
    } else {
      RequestExact(s, user, freq);
    }
  }

  lemma TestLeads(c: Sys, s: State, t: nat, was: nat)
    requires t < |c.threads| && |s.votes| == USER_QTY
    ensures Leads(Goto(c, s, t, Thread([], ThenTest(was))), [Go(t)],
                  Goto(c, s, t, Thread(if was > FREQ_52M && s.cur <= FREQ_52M then ToSlow() else [], Rest)))
  {
    var c1 := Goto(c, s, t, Thread([], ThenTest(was)));
    var th := Thread(if was > FREQ_52M && s.cur <= FREQ_52M then ToSlow() else [], Rest);
    RunOne(c1, Go(t));
    assert c1.threads[t := th] == c.threads[t := th];
  }

  lemma SecondHalfRuns(c: Sys, s: State, t: nat, was: nat)
    requires Safe(s) && t < |c.threads|
    ensures var slow := was > FREQ_52M && s.cur <= FREQ_52M;
            Leads(Goto(c, s, t, Thread([], ThenTest(was))), SecondHalf(t, slow),
                  Goto(c, if slow then LowFreqEnable(s) else s, t, Thread([], Rest)))
  {
    var c1 := Goto(c, s, t, Thread([], ThenTest(was)));
    TestLeads(c, s, t, was);
    if was > FREQ_52M && s.cur <= FREQ_52M {
      ToSlowIs(s);
      MicrosLead(c, s, t, ToSlow(), Rest, LowFreqEnable(s));
      LeadsOn(c1, [Go(t)], Goto(c, s, t, Thread(ToSlow(), Rest)), Gos(t, 6),
              Goto(c, LowFreqEnable(s), t, Thread([], Rest)));
    } else {
      assert [Go(t)] + [] == [Go(t)];
    }
  }

  /** A whole call without another thread in between. */
  function Alone(s: State, t: nat, user: nat, freq: nat): seq<Act>
    requires |s.votes| == USER_QTY
  {
    FirstHalf(s, t, user, freq) + SecondHalf(t, s.cur > FREQ_52M && AtRequest(s, user, freq).cur <= FREQ_52M)
  }

  /** It is right, and does what a request does when requests are single steps. */
  lemma AloneIsAppReq(c: Sys, t: nat, user: nat, freq: nat)
    requires Safe(c.s) && t < |c.threads| && Idle(c.threads[t])
    ensures Leads(c, Alone(c.s, t, user, freq), c.(s := AppReq(c.s, user, freq)))
  {
    var s := AtRequest(c.s, user, freq);
    var slow := c.s.cur > FREQ_52M && s.cur <= FREQ_52M;
    FirstHalfRuns(c, t, user, freq);
    SecondHalfRuns(c, s, t, c.s.cur);
    LeadsOn(c, FirstHalf(c.s, t, user, freq), Goto(c, s, t, Thread([], ThenTest(c.s.cur))), SecondHalf(t, slow),
            Goto(c, AppReq(c.s, user, freq), t, Thread([], Rest)));
    assert c.threads[t := Thread([], Rest)] == c.threads;
  }

  /** Calls one after the other, by any threads. */
  function Serial(c: Sys, es: seq<Step>, ts: seq<nat>): seq<Act>
    requires |c.s.votes| == USER_QTY && |ts| == |es|
    decreases |es|
  {
    if es == [] then []
    else
      (match es[0]
       case App(user, freq) => Alone(c.s, ts[0], user, freq)
       case _ => [Driver(es[0])])
      + Serial(c.(s := Clock.Next(c.s, es[0])), es[1..], ts[1..])
  }

  /** As long as requests do not overlap, every step is right, and the run is one of single-step requests. */
  lemma {:induction false} SerialRunsAreRight(c: Sys, es: seq<Step>, ts: seq<nat>)
    requires Safe(c.s) && |ts| == |es| && forall i | 0 <= i < |es| :: Allowed(es[i])
    requires (forall i | 0 <= i < |ts| :: ts[i] < |c.threads|) && forall t | 0 <= t < |c.threads| :: Idle(c.threads[t])
    ensures Leads(c, Serial(c, es, ts), c.(s := Clock.Run(c.s, es)))
    decreases |es|
  {
    if es != [] {
      var next := c.(s := Clock.Next(c.s, es[0]));
      NextIsSafe(c.s, es[0]);
      SerialRunsAreRight(next, es[1..], ts[1..]);
      if es[0].App? {
        AloneIsAppReq(c, ts[0], es[0].user, es[0].freq);
        LeadsOn(c, Alone(c.s, ts[0], es[0].user, es[0].freq), next, Serial(next, es[1..], ts[1..]),
                c.(s := Clock.Run(c.s, es)));
      } else {
        RunOne(c, Driver(es[0]));
        LeadsOn(c, [Driver(es[0])], next, Serial(next, es[1..], ts[1..]), c.(s := Clock.Run(c.s, es)));
      }
    }
  }

  // ---- A request that overtakes another ----

  /** Thread a lowers its vote and is preempted behind the test; thread b asks for f; then a goes on. */
  function Overtaking(s: State, a: nat, b: nat, user: nat, low: nat, other: nat, f: nat): seq<Act>
    requires |s.votes| == USER_QTY
  {
    FirstHalf(s, a, user, low) + ([Go(a)] + (Alone(AtRequest(s, user, low), b, other, f) + Gos(a, 6)))
  }

  /**
   From any safe state at a fast frequency: the clock ends up fast, selected from the USB PLL, and nobody holds the
   audio PLL for it.
  */
  lemma OvertakingIsUnsafe(c: Sys, a: nat, b: nat, user: nat, low: nat, other: nat, f: nat)
    requires Safe(c.s) && c.s.cur > FREQ_52M && a < |c.threads| && b < |c.threads| && a != b
    requires Idle(c.threads[a]) && Idle(c.threads[b]) && other < USER_QTY && FREQ_52M < f < FREQ_QTY
    requires SysfreqReq(c.s, user, low).cur <= FREQ_52M
    ensures var r := Run(c, Overtaking(c.s, a, b, user, low, other, f)).s;
            r.cur == f && r.mux == USB && SYS !in r.audUsers && !Safe(r)
  {
    var s1 := AtRequest(c.s, user, low);
    var s3 := AppReq(s1, other, f);
    var c1, c2 := Goto(c, s1, a, Thread([], ThenTest(c.s.cur))), Goto(c, s1, a, Thread(ToSlow(), Rest));
    var alone, gos := Alone(s1, b, other, f), Gos(a, 6);
    FirstHalfRuns(c, a, user, low);
    TestLeads(c, s1, a, c.s.cur);
    AloneIsAppReq(c2, b, other, f);
    FinallySlow(c, a, s3);
    Follow(c, FirstHalf(c.s, a, user, low), c1, [Go(a)], c2, alone, c2.(s := s3), gos);
    AppIsSafe(s1, other, f);
    LowFreqEnableIsSafe(s3);
    FastAfterRequest(s1, other, f);
  }

  lemma FinallySlow(c: Sys, a: nat, s: State)
    requires a < |c.threads| && |s.votes| == USER_QTY
    ensures Run(Goto(c, s, a, Thread(ToSlow(), Rest)), Gos(a, 6)).s == LowFreqEnable(s)
  {
    Finishes(Goto(c, s, a, Thread(ToSlow(), Rest)), a);
    ToSlowIs(s);
  }

  lemma Follow(c: Sys, w: seq<Act>, c1: Sys, x: seq<Act>, c2: Sys, y: seq<Act>, c3: Sys, z: seq<Act>)
    requires |c.s.votes| == |c1.s.votes| == |c2.s.votes| == |c3.s.votes| == USER_QTY
    requires Run(c, w) == c1 && Run(c1, x) == c2 && Run(c2, y) == c3
    ensures Run(c, w + (x + (y + z))) == Run(c3, z)
  {
    RunSplit(c, w, x + (y + z));
    RunSplit(c1, x, y + z);
    RunSplit(c2, y, z);
  }

  lemma FastAfterRequest(s: State, user: nat, f: nat)
    requires Safe(s) && s.cur <= FREQ_52M && user < USER_QTY && FREQ_52M < f < FREQ_QTY
    ensures AppReq(s, user, f).cur == f
  {
    LowFreqDisableIsSafe(s);
  }
}
