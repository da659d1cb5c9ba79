/**
 Clock management in the ULTRA_LOW_POWER build: the two PLLs and their user maps (platform/hal/hal_cmu.c),
 the votes for the system frequency (platform/hal/hal_sysfreq.c) and the request that ties them together
 (apps/common/app_utils.c). A PLL is taken to lock as soon as it is powered.
*/
module Clock {
  // enum HAL_CMU_FREQ_T
  const FREQ_32K: nat := 0
  const FREQ_26M: nat := 2
  const FREQ_52M: nat := 3
  const FREQ_QTY: nat := 7
  // enum HAL_SYSFREQ_USER_T; the application's users are the last four
  const FIRST_APP_USER: nat := 8
  const USER_QTY: nat := 12

  datatype Pll = AUD | USB
  datatype PllUser = INIT | SYS | AUDIO | USBUSER | SWITCH

  /** `glitch` says that the clock mux was switched while one of the PLLs was off. */
  datatype State = State(votes: seq<nat>, cur: nat, top: nat,
                         audUsers: set<PllUser>, usbUsers: set<PllUser>, audOn: bool, usbOn: bool,
                         mux: Pll, glitch: bool)

  // ---- PLLs ----

  function Users(s: State, p: Pll): set<PllUser> { if p.AUD? then s.audUsers else s.usbUsers }

  function On(s: State, p: Pll): bool { if p.AUD? then s.audOn else s.usbOn }

  function SetPll(s: State, p: Pll, on: bool, users: set<PllUser>): State {
    if p.AUD? then s.(audOn := on, audUsers := users) else s.(usbOn := on, usbUsers := users)
  }

  function Enable(s: State, p: Pll, u: PllUser): State {
    SetPll(s, p, On(s, p) || Users(s, p) == {} || u.INIT?, if u.INIT? then Users(s, p) else Users(s, p) + {u})
  }

  function Disable(s: State, p: Pll, u: PllUser): State {
    SetPll(s, p, On(s, p) && !(Users(s, p) == {u} || u.INIT?), if u.INIT? then Users(s, p) else Users(s, p) - {u})
  }

  function SelectPll(s: State, p: Pll): State {
    s.(mux := p, glitch := s.glitch || !(s.audOn && s.usbOn))
  }

  function LowFreqEnable(s: State): State {
    var a := Enable(Enable(s, AUD, SWITCH), USB, SWITCH);
    var b := Disable(Disable(SelectPll(a, USB), AUD, SWITCH), USB, SWITCH);
    Disable(b, AUD, SYS)
  }

  function LowFreqDisable(s: State): State {
    var a := Enable(Enable(Enable(s, AUD, SYS), AUD, SWITCH), USB, SWITCH);
    Disable(Disable(SelectPll(a, AUD), AUD, SWITCH), USB, SWITCH)
  }

  /** A PLL is powered exactly when it has a user. */
  predicate Consistent(s: State, p: Pll) { On(s, p) <==> Users(s, p) != {} }

  lemma UsersKeepConsistent(s: State, p: Pll, q: Pll, u: PllUser)
    requires Consistent(s, q) && u != INIT
    ensures Consistent(Enable(s, p, u), q) && Consistent(Disable(s, p, u), q)
  {
    assert u in Users(s, p) + {u};
    assert Users(s, p) - {u} == {} <==> Users(s, p) == {} || Users(s, p) == {u};
  }

  /** Who uses a PLL after a call: the caller has joined or left; everyone else, and the other PLL, stay. */
  lemma UsersAreExact(s: State, p: Pll, u: PllUser, q: Pll, v: PllUser)
    ensures v in Users(Enable(s, p, u), q) <==> v in Users(s, q) || (q == p && v == u && u != INIT)
    ensures v in Users(Disable(s, p, u), q) <==> v in Users(s, q) && !(q == p && v == u && u != INIT)
    ensures q != p ==> On(Enable(s, p, u), q) == On(s, q) && On(Disable(s, p, u), q) == On(s, q)
  {
  }

  /** The boot-time user bypasses the map: it is harmless exactly when it asks for what the map already says. */
  lemma InitExactly(s: State, p: Pll)
    requires Consistent(s, p)
    ensures Consistent(Enable(s, p, INIT), p) <==> Users(s, p) != {}
    ensures Consistent(Disable(s, p, INIT), p) <==> Users(s, p) == {}
  {
  }

  // ---- Votes ----

  /** The first user among the first n whose vote is highest. */
  function Best(votes: seq<nat>, n: nat): (u: nat)
    requires 0 < n <= |votes|
    ensures u < n && (forall i | 0 <= i < n :: votes[i] <= votes[u]) && (forall i | 0 <= i < u :: votes[i] < votes[u])
  {
    if n == 1 then 0
    else
      var b := Best(votes, n - 1);
      if votes[b] < votes[n - 1] then n - 1 else b
  }

  function AtLeast26M(f: nat): nat { if f > FREQ_26M then f else FREQ_26M }

  /** hal_sysfreq_req */
  function SysfreqReq(s: State, user: nat, freq: nat): (r: State)
    requires |s.votes| == USER_QTY
    ensures |r.votes| == USER_QTY
  {
    if user >= USER_QTY || freq >= FREQ_QTY then s
    else
      var v := s.(votes := s.votes[user := freq]);
      if freq > s.cur then v.(cur := freq, top := user)
      else if freq == s.cur then v.(top := user)
      else if s.top != user then v
      else
        var b := Best(v.votes, USER_QTY);
        if v.votes[b] == s.cur then v else v.(cur := AtLeast26M(v.votes[b]), top := b)
  }

  predicate Valid(s: State) {
    && |s.votes| == USER_QTY && FREQ_26M <= s.cur < FREQ_QTY
    && (forall i | 0 <= i < USER_QTY :: s.votes[i] <= s.cur)
  }

  /** The frequency is the highest vote, or 26M. */
  predicate Tight(s: State)
    requires |s.votes| == USER_QTY
  {
    s.cur == FREQ_26M || exists i | 0 <= i < USER_QTY :: s.votes[i] == s.cur
  }

  /** No request is ever starved: the frequency never lies below a vote, nor below 26M. */
  lemma VotesAreServed(s: State, user: nat, freq: nat)
    requires Valid(s)
    ensures Valid(SysfreqReq(s, user, freq))
    ensures user < USER_QTY && freq < FREQ_QTY ==> SysfreqReq(s, user, freq).votes[user] == freq
  {
  }

  /**
   After a request the frequency is the highest vote exactly if the request is for no less than the current
   frequency, or comes from the top user, or some other user still votes for the current frequency. Else the
   clock stays too fast.
  */
  lemma TightExactly(s: State, user: nat, freq: nat)
    requires Valid(s) && user < USER_QTY && freq < FREQ_QTY
    ensures Tight(SysfreqReq(s, user, freq)) <==>
              || freq >= s.cur || user == s.top || s.cur == FREQ_26M
              || exists i | 0 <= i < USER_QTY && i != user :: s.votes[i] == s.cur
  {
    var r := SysfreqReq(s, user, freq);
    assert r.votes[user] == freq && forall i | 0 <= i < USER_QTY && i != user :: r.votes[i] == s.votes[i];
    if freq < s.cur && user == s.top {
      var b := Best(r.votes, USER_QTY);
      assert r.cur == FREQ_26M || r.votes[b] == r.cur;
    }
  }

  /**
   Who is on top after a request: a user who asks for no less than the current frequency; when the top user steps back
   and nobody votes for that frequency any more, the first to vote highest; else nothing moves.
  */
  lemma TopExactly(s: State, user: nat, freq: nat)
    requires Valid(s) && user < USER_QTY && freq < FREQ_QTY
    ensures var r := SysfreqReq(s, user, freq);
            if freq >= s.cur then r.top == user && r.cur == freq
            else if user == s.top && forall i | 0 <= i < USER_QTY :: r.votes[i] < s.cur then
              && r.top < USER_QTY && r.cur == AtLeast26M(r.votes[r.top])
              && (forall i | 0 <= i < USER_QTY :: r.votes[i] <= r.votes[r.top])
              && (forall i | 0 <= i < r.top :: r.votes[i] < r.votes[r.top])
            else r.top == s.top && r.cur == s.cur
  {
    var r := SysfreqReq(s, user, freq);
    assert r.votes == s.votes[user := freq];
    if freq < s.cur && user == s.top {
      var b := Best(r.votes, USER_QTY);
      assert r.votes[b] == s.cur || r.top == b;
    }
  }

  /** Two users vote for 104M; the top user steps back, then the other: nobody wants 104M, yet it stays. */
  lemma StaleTopUser(s: State, a: nat, b: nat, f: nat)
    requires Valid(s) && a < USER_QTY && b < USER_QTY && a != b && s.cur <= f && FREQ_26M < f < FREQ_QTY
    requires forall i | 0 <= i < USER_QTY && i != a && i != b :: s.votes[i] < f
    ensures var s1 := SysfreqReq(SysfreqReq(s, a, f), b, f);
            var r := SysfreqReq(SysfreqReq(s1, b, FREQ_32K), a, FREQ_32K);
            r.cur == f && forall i | 0 <= i < USER_QTY :: r.votes[i] < f
  {
    var s1 := SysfreqReq(SysfreqReq(s, a, f), b, f);
    var s2 := SysfreqReq(s1, b, FREQ_32K);
    assert s2.votes[a] == f;
  }

  // ---- Requests and PLLs together ----

  /** app_sysfreq_req */
  function AppReq(s: State, user: nat, freq: nat): (r: State)
    requires |s.votes| == USER_QTY
    ensures |r.votes| == USER_QTY
  {
    var a := if s.cur <= FREQ_52M && freq > FREQ_52M then LowFreqDisable(s) else s;
    var r := SysfreqReq(a, user, freq);
    if s.cur > FREQ_52M && r.cur <= FREQ_52M then LowFreqEnable(r) else r
  }

  datatype Step =
    | App(user: nat, freq: nat)             // through app_sysfreq_req
    | Direct(user: nat, freq: nat)          // a driver calling hal_sysfreq_req
    | PllOn(p: Pll, u: PllUser)             // codec and USB
    | PllOff(p: Pll, u: PllUser)

  function Next(s: State, e: Step): (r: State)
    requires |s.votes| == USER_QTY
    ensures |r.votes| == USER_QTY
  {
    match e
    case App(user, freq) => AppReq(s, user, freq)
    case Direct(user, freq) => SysfreqReq(s, user, freq)
    case PllOn(p, u) => Enable(s, p, u)
    case PllOff(p, u) => Disable(s, p, u)
  }

  /** Drivers ask for at most 52M; only the codec and USB switch PLLs by hand. */
  predicate Allowed(e: Step) {
    match e
    case App(_, _) => true
    case Direct(_, freq) => freq <= FREQ_52M
    case PllOn(_, u) => u == AUDIO || u == USBUSER
    case PllOff(_, u) => u == AUDIO || u == USBUSER
  }

  /** What the hardware needs. */
  predicate Safe(s: State) {
    && Valid(s) && !s.glitch && Consistent(s, AUD) && Consistent(s, USB)
    && (s.cur > FREQ_52M ==> s.mux == AUD && s.audOn && SYS in s.audUsers)
  }

  /** Switching to the slow clock: both PLLs are on while the mux moves, and SYS lets go of the audio PLL. */
  lemma LowFreqEnableIsSafe(s: State)
    requires Consistent(s, AUD) && Consistent(s, USB) && !s.glitch
    ensures var r := LowFreqEnable(s);
            && Consistent(r, AUD) && Consistent(r, USB) && !r.glitch && r.mux == USB
            && r.audUsers == s.audUsers - {SWITCH, SYS} && r.usbUsers == s.usbUsers - {SWITCH}
            && r == s.(mux := r.mux, audUsers := r.audUsers, usbUsers := r.usbUsers, audOn := r.audOn, usbOn := r.usbOn)
  {
    var a1 := Enable(s, AUD, SWITCH);
    var a2 := Enable(a1, USB, SWITCH);
    assert SWITCH in a2.audUsers && SWITCH in a2.usbUsers;
    var b0 := SelectPll(a2, USB);
    var b1 := Disable(b0, AUD, SWITCH);
    var b2 := Disable(b1, USB, SWITCH);
    UsersKeepConsistent(s, AUD, AUD, SWITCH);
    UsersKeepConsistent(a1, USB, USB, SWITCH);
    UsersKeepConsistent(b0, AUD, AUD, SWITCH);
    UsersKeepConsistent(b1, USB, USB, SWITCH);
    UsersKeepConsistent(b2, AUD, AUD, SYS);
    assert s.audUsers + {SWITCH} - {SWITCH} - {SYS} == s.audUsers - {SWITCH, SYS};
    assert s.usbUsers + {SWITCH} - {SWITCH} == s.usbUsers - {SWITCH};
  }

  lemma LowFreqDisableIsSafe(s: State)
    requires Consistent(s, AUD) && Consistent(s, USB) && !s.glitch
    ensures var r := LowFreqDisable(s);
            && Consistent(r, AUD) && Consistent(r, USB) && !r.glitch && r.mux == AUD && r.audOn
            && r.audUsers == s.audUsers + {SYS} - {SWITCH} && r.usbUsers == s.usbUsers - {SWITCH}
            && r == s.(mux := r.mux, audUsers := r.audUsers, usbUsers := r.usbUsers, audOn := r.audOn, usbOn := r.usbOn)
  {
    var a0 := Enable(s, AUD, SYS);
    var a1 := Enable(a0, AUD, SWITCH);
    var a2 := Enable(a1, USB, SWITCH);
    assert SWITCH in a2.audUsers && SWITCH in a2.usbUsers;
    var b0 := SelectPll(a2, AUD);
    var b1 := Disable(b0, AUD, SWITCH);
    UsersKeepConsistent(s, AUD, AUD, SYS);
    UsersKeepConsistent(a0, AUD, AUD, SWITCH);
    UsersKeepConsistent(a1, USB, USB, SWITCH);
    UsersKeepConsistent(b0, AUD, AUD, SWITCH);
    UsersKeepConsistent(b1, USB, USB, SWITCH);
    assert SYS in b1.audUsers;
    assert s.audUsers + {SYS} + {SWITCH} - {SWITCH} == s.audUsers + {SYS} - {SWITCH};
    assert s.usbUsers + {SWITCH} - {SWITCH} == s.usbUsers - {SWITCH};
  }

  lemma VotesLeavePlls(s: State, user: nat, freq: nat)
    requires Valid(s)
    ensures var r := SysfreqReq(s, user, freq);
            r == s.(votes := r.votes, cur := r.cur, top := r.top) && (r.cur <= s.cur || r.cur == freq)
  {
  }

  lemma AppIsSafe(s: State, user: nat, freq: nat)
    requires Safe(s)
    ensures Safe(AppReq(s, user, freq))
  {
    LowFreqDisableIsSafe(s);
    var a := if s.cur <= FREQ_52M && freq > FREQ_52M then LowFreqDisable(s) else s;
    assert Safe(a);
    assert freq > FREQ_52M || s.cur > FREQ_52M ==> a.mux == AUD && a.audOn && SYS in a.audUsers;
    VotesAreServed(a, user, freq);
    VotesLeavePlls(a, user, freq);
    var r := SysfreqReq(a, user, freq);
    assert Safe(r);
    LowFreqEnableIsSafe(r);
  }

  lemma PllIsSafe(s: State, p: Pll, u: PllUser)
    requires Safe(s) && (u == AUDIO || u == USBUSER)
    ensures Safe(Enable(s, p, u)) && Safe(Disable(s, p, u))
  {
    UsersKeepConsistent(s, p, AUD, u);
    UsersKeepConsistent(s, p, USB, u);
    assert SYS in s.audUsers ==> SYS in s.audUsers - {u} && SYS in s.audUsers + {u};
  }

  lemma NextIsSafe(s: State, e: Step)
    requires Safe(s) && Allowed(e)
    ensures Safe(Next(s, e))
  {
    match e
    case App(user, freq) => AppIsSafe(s, user, freq);
    case Direct(user, freq) => {
      VotesAreServed(s, user, freq);
      VotesLeavePlls(s, user, freq);
    }
    case PllOn(p, u) => PllIsSafe(s, p, u);
    case PllOff(p, u) => PllIsSafe(s, p, u);
  }

  /** The tie between the clock and the audio PLL that saves power. */
  predicate Economical(s: State) {
    VotesSplit(s) && (SYS in s.audUsers <==> s.cur > FREQ_52M)
  }

  /** Only applications vote for more than 52M, and one of them is on top then. */
  predicate VotesSplit(s: State) {
    && Valid(s) && (s.cur > FREQ_52M ==> s.top >= FIRST_APP_USER)
    && (forall i | 0 <= i < FIRST_APP_USER :: s.votes[i] <= FREQ_52M)
  }

  lemma AppVotes(s: State, user: nat, freq: nat)
    requires VotesSplit(s) && FIRST_APP_USER <= user < USER_QTY && freq < FREQ_QTY
    ensures VotesSplit(SysfreqReq(s, user, freq))
    ensures freq > FREQ_52M ==> SysfreqReq(s, user, freq).cur > FREQ_52M
  {
    VotesAreServed(s, user, freq);
  }

  lemma DriverVotes(s: State, user: nat, freq: nat)
    requires VotesSplit(s) && user < FIRST_APP_USER && freq <= FREQ_52M
    ensures VotesSplit(SysfreqReq(s, user, freq))
    ensures SysfreqReq(s, user, freq).cur > FREQ_52M <==> s.cur > FREQ_52M
  {
    VotesAreServed(s, user, freq);
  }

  /** Applications use their own users and known frequencies, drivers the others. */
  predicate Separate(e: Step) {
    match e
    case App(user, freq) => FIRST_APP_USER <= user < USER_QTY && freq < FREQ_QTY
    case Direct(user, _) => user < FIRST_APP_USER
    case _ => true
  }

  lemma NextIsEconomical(s: State, e: Step)
    requires Safe(s) && Economical(s) && Allowed(e) && Separate(e)
    ensures Economical(Next(s, e))
  {
    match e
    case App(user, freq) => AppIsEconomical(s, user, freq);
    case Direct(user, freq) => {
      DriverVotes(s, user, freq);
      VotesLeavePlls(s, user, freq);
    }
    case _ =>
  }

  lemma AppIsEconomical(s: State, user: nat, freq: nat)
    requires Safe(s) && Economical(s) && FIRST_APP_USER <= user < USER_QTY && freq < FREQ_QTY
    ensures Economical(AppReq(s, user, freq))
  {
    LowFreqDisableIsSafe(s);
    var a := if s.cur <= FREQ_52M && freq > FREQ_52M then LowFreqDisable(s) else s;
    assert VotesSplit(a);
    AppVotes(a, user, freq);
    VotesLeavePlls(a, user, freq);
    var r := SysfreqReq(a, user, freq);
    assert Consistent(r, AUD) && Consistent(r, USB) && !r.glitch;
    LowFreqEnableIsSafe(r);
    assert SYS in r.audUsers <==> s.cur > FREQ_52M || freq > FREQ_52M;
  }

  function Run(s: State, es: seq<Step>): (r: State)
    requires |s.votes| == USER_QTY
    ensures |r.votes| == USER_QTY
    decreases |es|
  {
    if es == [] then s else Run(Next(s, es[0]), es[1..])
  }

  /** hal_cmu_setup, from the USB PLL the boot ROM left on. */
  function Boot(): State {
    var rom := State([0, 0, 0, 0, 0, 0, 0, 0, 0, 0, 0, 0], FREQ_26M, USER_QTY, {}, {}, false, true, USB, false);
    var switched := SelectPll(Enable(rom, AUD, SYS), USB);
    SysfreqReq(Disable(Disable(switched, USB, INIT), AUD, SYS), FIRST_APP_USER, FREQ_52M)
  }

  lemma BootIsSafe()
    ensures Safe(Boot()) && Economical(Boot()) && Boot().cur == FREQ_52M && !Boot().audOn && !Boot().usbOn
    ensures Boot().mux == USB && Boot().top == FIRST_APP_USER
    ensures forall i | 0 <= i < USER_QTY :: Boot().votes[i] == if i == FIRST_APP_USER then FREQ_52M else FREQ_32K
  {
    assert {SYS} - {SYS} == {};
    var none: set<PllUser> := {};
    assert none + {SYS} == {SYS};
  }

  /** Over every series of requests: no glitch, a PLL runs iff it has a user, and a fast clock has its PLL. */
  lemma {:induction false} RunIsSafe(s: State, es: seq<Step>)
    requires Safe(s) && forall i | 0 <= i < |es| :: Allowed(es[i])
    ensures Safe(Run(s, es))
    ensures Economical(s) && (forall i | 0 <= i < |es| :: Separate(es[i])) ==> Economical(Run(s, es))
    decreases |es|
  {
    if es != [] {
      NextIsSafe(s, es[0]);
      if Economical(s) && Separate(es[0]) {
        NextIsEconomical(s, es[0]);
      }
      RunIsSafe(Next(s, es[0]), es[1..]);
    }
  }

  // ---- What each user has asked for last ----

  function LastVote(es: seq<Step>, u: nat, was: nat): nat
    decreases |es|
  {
    if es == [] then was
    else
      LastVote(es[1..], u,
               match es[0]
               case App(user, freq) => if user == u && freq < FREQ_QTY then freq else was
               case Direct(user, freq) => if user == u && freq < FREQ_QTY then freq else was
               case _ => was)
  }

  /** Over every series of requests each user's last one stands, and the frequency is no lower. */
  lemma {:induction false} LastVotesStand(s: State, es: seq<Step>, u: nat)
    requires Safe(s) && u < USER_QTY && forall i | 0 <= i < |es| :: Allowed(es[i])
    ensures Run(s, es).votes[u] == LastVote(es, u, s.votes[u]) <= Run(s, es).cur
    decreases |es|
  {
    RunIsSafe(s, es);
    if es != [] {
      NextIsSafe(s, es[0]);
      NextVotes(s, es[0], u);
      LastVotesStand(Next(s, es[0]), es[1..], u);
    }
  }

  lemma SwitchesLeaveVotes(s: State, user: nat, freq: nat)
    requires |s.votes| == USER_QTY
    ensures AppReq(s, user, freq).votes == SysfreqReq(s, user, freq).votes
  {
    var a := if s.cur <= FREQ_52M && freq > FREQ_52M then LowFreqDisable(s) else s;
    assert a.votes == s.votes && a.cur == s.cur && a.top == s.top;
  }

  lemma NextVotes(s: State, e: Step, u: nat)
    requires Safe(s) && u < USER_QTY
    ensures Next(s, e).votes[u] == LastVote([e], u, s.votes[u])
  {
    assert [e][1..] == [];
    if e.App? {
      SwitchesLeaveVotes(s, e.user, e.freq);
    }
  }

  // ---- The codec's and USB's PLLs ----

  /** Whether the last call about this PLL and user was to switch it on. */
  function Held(es: seq<Step>, p: Pll, u: PllUser, was: bool): bool
    decreases |es|
  {
    if es == [] then was
    else Held(es[1..], p, u, if es[0] == PllOn(p, u) then true else if es[0] == PllOff(p, u) then false else was)
  }

  lemma LowFreqLeavesOthers(s: State, p: Pll, u: PllUser)
    requires u != SYS && u != SWITCH
    ensures u in Users(LowFreqEnable(s), p) <==> u in Users(s, p)
    ensures u in Users(LowFreqDisable(s), p) <==> u in Users(s, p)
  {
  }

  lemma AppLeavesOthers(s: State, user: nat, freq: nat, p: Pll, u: PllUser)
    requires Safe(s) && u != SYS && u != SWITCH
    ensures u in Users(AppReq(s, user, freq), p) <==> u in Users(s, p)
  {
    var a := if s.cur <= FREQ_52M && freq > FREQ_52M then LowFreqDisable(s) else s;
    LowFreqDisableIsSafe(s);
    LowFreqLeavesOthers(s, p, u);
    VotesLeavePlls(a, user, freq);
    LowFreqLeavesOthers(SysfreqReq(a, user, freq), p, u);
  }

  lemma HeldStep(s: State, e: Step, p: Pll, u: PllUser)
    requires Safe(s) && Allowed(e) && (u == AUDIO || u == USBUSER)
    ensures u in Users(Next(s, e), p) <==>
              e == PllOn(p, u) || (u in Users(s, p) && e != PllOff(p, u))
  {
    match e
    case App(user, freq) => AppLeavesOthers(s, user, freq, p, u);
    case Direct(user, freq) => VotesLeavePlls(s, user, freq);
    case PllOn(q, v) => UsersAreExact(s, q, v, p, u);
    case PllOff(q, v) => UsersAreExact(s, q, v, p, u);
  }

  /**
   A PLL that the codec or USB has switched on stays on until it switches it off again, whatever frequencies are
   asked for in between; and it is a user exactly so long.
  */
  lemma {:induction false} HeldExactly(s: State, es: seq<Step>, p: Pll, u: PllUser)
    requires Safe(s) && (u == AUDIO || u == USBUSER) && forall i | 0 <= i < |es| :: Allowed(es[i])
    ensures u in Users(Run(s, es), p) <==> Held(es, p, u, u in Users(s, p))
    ensures Held(es, p, u, u in Users(s, p)) ==> On(Run(s, es), p)
    decreases |es|
  {
    if es != [] {
      NextIsSafe(s, es[0]);
      HeldStep(s, es[0], p, u);
      HeldExactly(Next(s, es[0]), es[1..], p, u);
    } else {
      assert Consistent(s, AUD) && Consistent(s, USB);
    }
  }

  // ---- The code ----

  class Cmu {
    var votes: seq<nat>
    var curFreq: nat
    var topUser: nat
    var audUsers: set<PllUser>
    var usbUsers: set<PllUser>
    var audOn: bool
    var usbOn: bool
    var mux: Pll
    ghost var glitch: bool

    ghost function St(): State
      reads this
    {
      State(votes, curFreq, topUser, audUsers, usbUsers, audOn, usbOn, mux, glitch)
    }

    method PllEnable(p: Pll, u: PllUser)
      modifies this`audUsers, this`usbUsers, this`audOn, this`usbOn
      ensures St() == Enable(old(St()), p, u)
    {
      if (if p.AUD? then audUsers else usbUsers) == {} || u == INIT {
        if p == AUD {
          audOn := true;
        } else {
          usbOn := true;
        }
      }
      if u != INIT {
        if p == AUD {
          audUsers := audUsers + {u};
        } else {
          usbUsers := usbUsers + {u};
        }
      }
    }

    method PllDisable(p: Pll, u: PllUser)
      modifies this`audUsers, this`usbUsers, this`audOn, this`usbOn
      ensures St() == Disable(old(St()), p, u)
    {
      if (if p.AUD? then audUsers else usbUsers) == {u} || u == INIT {
        if p == AUD {
          audOn := false;
        } else {
          usbOn := false;
        }
      }
      if u != INIT {
        if p == AUD {
          audUsers := audUsers - {u};
        } else {
          usbUsers := usbUsers - {u};
        }
      }
    }

    method SysSelectPll(p: Pll)
      modifies this`mux, this`glitch
      ensures St() == SelectPll(old(St()), p)
    {
      glitch := glitch || !(audOn && usbOn);
      mux := p;
    }

    method LowFreqModeEnable()
      modifies this
      ensures St() == LowFreqEnable(old(St()))
    {
      PllEnable(AUD, SWITCH);
      PllEnable(USB, SWITCH);
      SysSelectPll(USB);
      PllDisable(AUD, SWITCH);
      PllDisable(USB, SWITCH);
      PllDisable(AUD, SYS);
    }

    method LowFreqModeDisable()
      modifies this
      ensures St() == LowFreqDisable(old(St()))
    {
      PllEnable(AUD, SYS);
      PllEnable(AUD, SWITCH);
      PllEnable(USB, SWITCH);
      SysSelectPll(AUD);
      PllDisable(AUD, SWITCH);
      PllDisable(USB, SWITCH);
    }

    /** The scan over all votes: the first highest one. */
    method HighestVote() returns (user: nat, freq: nat)
      requires |votes| == USER_QTY
      ensures user == Best(votes, USER_QTY) && freq == votes[user]
    {
      user, freq := 0, votes[0];
      var i := 1;
      while i < USER_QTY
        invariant 1 <= i <= USER_QTY && user == Best(votes, i) && freq == votes[user]
      {
        if freq < votes[i] {
          user, freq := i, votes[i];
        }
        i := i + 1;
      }
    }

    method HalSysfreqReq(user: nat, freq: nat) returns (ret: nat)
      requires |votes| == USER_QTY
      modifies this`votes, this`curFreq, this`topUser
      ensures St() == SysfreqReq(old(St()), user, freq)
      ensures ret == if user >= USER_QTY then 1 else if freq >= FREQ_QTY then 2 else 0
    {
      if user >= USER_QTY {
        return 1;
      }
      if freq >= FREQ_QTY {
        return 2;
      }
      votes := votes[user := freq];
      if freq > curFreq {
        curFreq, topUser := freq, user;
      } else if freq < curFreq {
        if topUser == user {
          var best, top := HighestVote();
          if top != curFreq {
            curFreq, topUser := if top > FREQ_26M then top else FREQ_26M, best;
          }
        }
      } else {
        topUser := user;
      }
      ret := 0;
    }

    method AppSysfreqReq(user: nat, freq: nat) returns (ret: nat)
      requires |votes| == USER_QTY
      modifies this
      ensures St() == AppReq(old(St()), user, freq)
    {
      var oldFreq := curFreq;
      if oldFreq <= FREQ_52M && freq > FREQ_52M {
        LowFreqModeDisable();
      }
      ret := HalSysfreqReq(user, freq);
      if oldFreq > FREQ_52M && curFreq <= FREQ_52M {
        LowFreqModeEnable();
      }
    }
  }
}