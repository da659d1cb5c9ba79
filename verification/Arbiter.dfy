/**
 The audio arbiter of apps/audioplayers/app_audio.cpp: one list of what wants to play, one stream that is
 open (services/bt_app/app_bt_stream.cpp), and the messages that open and close streams and voice prompts.
 Players are taken to start and stop when they are asked to.
*/
module Arbiter {
  import opened Common

  const STREAMS: nat := 6          // HFP and A2DP in three codings each: ids 0 to 5
  const FACTORY_LOOP: nat := 6
  const PLAY_BACK: nat := 7
  const STREAM_NUM: nat := 8       // no stream
  const MAX_AUDIO_BUF_LIST: nat := 5

  datatype Prompt = IncomingCall | Warning | Language | OtherPrompt(n: nat)

  /** APP_AUDIO_STATUS: what to open, and for a prompt which one. */
  datatype Status = Status(id: nat, aud: Prompt, freq: nat)

  datatype Msg = Open(s: Status) | Close(id: nat) | CloseAll | SetupOrRestart

  /** `now` is what is playing; `halted` says that an assertion has failed. */
  datatype Sys = Sys(list: seq<Status>, now: Option<Status>, halted: bool)

  predicate IsPrompt(s: Status) { s.id == PLAY_BACK }

  predicate IsStream(s: Status) { s.id < STREAMS }

  predicate HasPrompt(list: seq<Status>) { exists i | 0 <= i < |list| :: IsPrompt(list[i]) }

  predicate HasStream(list: seq<Status>) { exists i | 0 <= i < |list| :: IsStream(list[i]) }

  /** How many prompts of one kind are queued. */
  function Queued(list: seq<Status>, kind: Prompt): (n: nat)
    ensures n <= |list|
  {
    if list == [] then 0
    else (if IsPrompt(list[0]) && list[0].aud == kind then 1 else 0) + Queued(list[1..], kind)
  }

  predicate Filtered(list: seq<Status>, s: Status) {
    match s.aud
    case IncomingCall => Queued(list, IncomingCall) > 0
    case Warning => Queued(list, Warning) > 3
    case Language => Queued(list, Language) > 3
    case OtherPrompt(_) => false
  }

  function FirstPrompt(list: seq<Status>): (k: nat)
    ensures k <= |list| && (forall i | 0 <= i < k :: !IsPrompt(list[i])) && (k < |list| ==> IsPrompt(list[k]))
  {
    if list == [] || IsPrompt(list[0]) then 0 else 1 + FirstPrompt(list[1..])
  }

  // ---- Streams ----

  function StreamClose(now: Option<Status>, id: nat): Option<Status> {
    if now.Some? && now.value.id == id then None else now
  }

  /** Whatever plays is closed first; ids nobody plays leave nothing open. */
  function StreamOpen(s: Status): Option<Status> {
    if s.id < STREAM_NUM then Some(s) else None
  }

  // ---- Messages ----

  function DoOpen(a: Sys, s: Status): Sys {
    if !IsPrompt(s) then Sys([s], StreamOpen(s), false)
    else if Filtered(a.list, s) then a
    else if !HasPrompt(a.list) then Sys(a.list + [s], StreamOpen(s), false)
    else if |a.list| >= MAX_AUDIO_BUF_LIST then
      a.(list := [if HasStream(a.list) then a.list[0] else s], halted := true)
    else a.(list := a.list + [s])
  }

  function Without(list: seq<Status>, k: nat): seq<Status>
    requires k < |list|
  {
    list[..k] + list[k + 1..]
  }

  function ClosePrompt(a: Sys): Sys {
    var now := StreamClose(a.now, PLAY_BACK);
    var k := FirstPrompt(a.list);
    if k == |a.list| then a.(now := now)
    else if k + 1 < |a.list| then
      if IsPrompt(a.list[k + 1]) then Sys(Without(a.list, k), StreamOpen(a.list[k + 1]), false)
      else a.(now := now, halted := true)
    else if HasStream(a.list) then
      if !IsPrompt(a.list[0]) then Sys(Without(a.list, k), StreamOpen(a.list[0]), false)
      else a.(now := now, halted := true)
    else Sys(Without(a.list, k), now, false)
  }

  function CloseOther(a: Sys, id: nat): Sys {
    Sys(if HasStream(a.list) then a.list[1..] else a.list, StreamClose(a.now, id), false)
  }

  function Next(a: Sys, m: Msg): Sys {
    if a.halted then a
    else match m
      case Open(s) => DoOpen(a, s)
      case Close(id) => if id == PLAY_BACK then ClosePrompt(a) else CloseOther(a, id)
      case CloseAll => Sys([], None, false)
      case SetupOrRestart => a
  }

  function Run(a: Sys, ms: seq<Msg>): Sys
    decreases |ms|
  {
    if ms == [] then a else Run(Next(a, ms[0]), ms[1..])
  }

  function Start(): Sys { Sys([], None, false) }

  // ---- Shape ----

  /** At most one stream, and it is in front of the prompts. */
  predicate Shape(list: seq<Status>) {
    forall i | 1 <= i < |list| :: IsPrompt(list[i])
  }

  predicate Capped(list: seq<Status>) {
    && |list| <= MAX_AUDIO_BUF_LIST && Queued(list, IncomingCall) <= 1
    && Queued(list, Warning) <= 4 && Queued(list, Language) <= 4
  }

  lemma {:induction false} QueuedAppend(a: seq<Status>, b: seq<Status>, kind: Prompt)
    ensures Queued(a + b, kind) == Queued(a, kind) + Queued(b, kind)
  {
    if a == [] {
      assert a + b == b;
    } else {
      assert (a + b)[1..] == a[1..] + b;
      QueuedAppend(a[1..], b, kind);
    }
  }

  lemma QueuedOne(s: Status, kind: Prompt)
    ensures Queued([s], kind) == if IsPrompt(s) && s.aud == kind then 1 else 0
  {
    assert [s][1..] == [];
  }

  /** The prompts of one kind, by their places. */
  function Places(list: seq<Status>, kind: Prompt): set<nat> {
    set i: nat | i < |list| && IsPrompt(list[i]) && list[i].aud == kind
  }

  lemma {:induction false} QueuedIsCount(list: seq<Status>, kind: Prompt)
    ensures Queued(list, kind) == |Places(list, kind)|
    decreases |list|
  {
    if list != [] {
      var n := |list| - 1;
      var front, s := list[..n], list[n];
      assert list == front + [s];
      QueuedAppend(front, [s], kind);
      QueuedOne(s, kind);
      QueuedIsCount(front, kind);
      PlacesGrow(front, s, kind);
    }
  }

  lemma PlacesGrow(front: seq<Status>, s: Status, kind: Prompt)
    ensures |Places(front + [s], kind)| == |Places(front, kind)| + if IsPrompt(s) && s.aud == kind then 1 else 0
  {
    var all := front + [s];
    if IsPrompt(s) && s.aud == kind {
      assert Places(all, kind) == Places(front, kind) + {|front|};
    } else {
      assert Places(all, kind) == Places(front, kind);
    }
  }

  lemma QueuedWithout(list: seq<Status>, k: nat, kind: Prompt)
    requires k < |list|
    ensures Queued(Without(list, k), kind) <= Queued(list, kind)
  {
    assert list == list[..k] + ([list[k]] + list[k + 1..]);
    QueuedAppend(list[..k], [list[k]] + list[k + 1..], kind);
    QueuedAppend([list[k]], list[k + 1..], kind);
    QueuedAppend(list[..k], list[k + 1..], kind);
  }

  lemma CappedWithout(list: seq<Status>, k: nat)
    requires k < |list| && Capped(list)
    ensures Capped(Without(list, k))
  {
    QueuedWithout(list, k, IncomingCall);
    QueuedWithout(list, k, Warning);
    QueuedWithout(list, k, Language);
  }

  lemma CappedAppend(list: seq<Status>, s: Status)
    requires Capped(list) && !Filtered(list, s) && |list| < MAX_AUDIO_BUF_LIST
    ensures Capped(list + [s])
  {
    QueuedAppend(list, [s], IncomingCall);
    QueuedAppend(list, [s], Warning);
    QueuedAppend(list, [s], Language);
    QueuedOne(s, IncomingCall);
    QueuedOne(s, Warning);
    QueuedOne(s, Language);
  }

  lemma CappedFront(s: Status)
    ensures Capped([s])
  {
    QueuedOne(s, IncomingCall);
    QueuedOne(s, Warning);
    QueuedOne(s, Language);
  }

  /** A list without prompts has at most one element; only the front can be a stream. */
  lemma ShapeFacts(list: seq<Status>)
    requires Shape(list)
    ensures !HasPrompt(list) <==> list == [] || (|list| == 1 && !IsPrompt(list[0]))
    ensures HasStream(list) <==> list != [] && IsStream(list[0])
    ensures FirstPrompt(list) == if list == [] || IsPrompt(list[0]) then 0 else 1
  {
    if |list| > 1 {
      assert IsPrompt(list[1]);
    }
  }

  predicate Inv(a: Sys) {
    !a.halted ==> Shape(a.list) && Capped(a.list)
  }

  lemma OpenKeepsShape(a: Sys, s: Status)
    requires Inv(a) && !a.halted
    ensures Inv(DoOpen(a, s))
    ensures DoOpen(a, s).halted <==>
              IsPrompt(s) && !Filtered(a.list, s) && HasPrompt(a.list) && |a.list| == MAX_AUDIO_BUF_LIST
  {
    ShapeFacts(a.list);
    CappedFront(s);
    if |a.list| < MAX_AUDIO_BUF_LIST && !Filtered(a.list, s) {
      CappedAppend(a.list, s);
    }
  }

  /** How many prompts of a kind may be queued: one call, four warnings and four languages, any number of others. */
  predicate HasRoom(list: seq<Status>, kind: Prompt) {
    match kind
    case IncomingCall => |Places(list, kind)| < 1
    case Warning => |Places(list, kind)| < 4
    case Language => |Places(list, kind)| < 4
    case OtherPrompt(_) => true
  }

  /**
   What opening does to the list: a stream takes its place, a prompt joins the end exactly if its kind has room, and
   nothing changes otherwise; it plays at once exactly if no prompt is ahead of it.
  */
  lemma OpenExactly(a: Sys, s: Status)
    requires Inv(a) && !a.halted && !DoOpen(a, s).halted
    ensures !IsPrompt(s) ==> DoOpen(a, s).list == [s] && DoOpen(a, s).now == StreamOpen(s)
    ensures IsPrompt(s) && HasRoom(a.list, s.aud) ==>
              && DoOpen(a, s).list == a.list + [s]
              && DoOpen(a, s).now == if HasPrompt(a.list) then a.now else Some(s)
    ensures IsPrompt(s) && !HasRoom(a.list, s.aud) ==> DoOpen(a, s) == a
  {
    QueuedIsCount(a.list, IncomingCall);
    QueuedIsCount(a.list, Warning);
    QueuedIsCount(a.list, Language);
  }

  lemma ShapeWithout(list: seq<Status>, k: nat)
    requires Shape(list) && k < |list|
    ensures Shape(Without(list, k))
  {
    var r := Without(list, k);
    assert forall i | 0 <= i < |r| :: r[i] == if i < k then list[i] else list[i + 1];
  }

  /**
   What closing does. The first prompt leaves, and what stands there afterwards, a prompt or else the stream, is
   opened; closing any other id takes the stream away, whichever it is, and ends what plays only if it has that id.
  */
  lemma CloseExactly(a: Sys, id: nat)
    requires Inv(a) && !a.halted
    ensures var r, ended := Next(a, Close(id)), if a.now.Some? && a.now.value.id == id then None else a.now;
            && !r.halted
            && (id == PLAY_BACK && HasPrompt(a.list) ==>
                  var k := if IsPrompt(a.list[0]) then 0 else 1;
                  && r.list == a.list[..k] + a.list[k + 1..]
                  && (k < |r.list| ==> IsPrompt(r.list[k]) && r.now == Some(r.list[k]))
                  && (k == |r.list| == 1 && IsStream(r.list[0]) ==> r.now == Some(r.list[0]))
                  && (r.list == [] ==> r.now == ended))
            && (id == PLAY_BACK && !HasPrompt(a.list) ==> r.list == a.list && r.now == ended)
            && (id != PLAY_BACK ==> r.list == (if HasStream(a.list) then a.list[1..] else a.list) && r.now == ended)
    ensures Next(a, CloseAll) == Sys([], None, false)
  {
    ShapeFacts(a.list);
    if id == PLAY_BACK && HasPrompt(a.list) && FirstPrompt(a.list) + 1 < |a.list| {
      assert IsPrompt(a.list[FirstPrompt(a.list) + 1]);
    }
  }

  lemma ClosePromptKeepsShape(a: Sys)
    requires Inv(a) && !a.halted
    ensures Inv(ClosePrompt(a)) && !ClosePrompt(a).halted
  {
    var k := FirstPrompt(a.list);
    ShapeFacts(a.list);
    if k < |a.list| {
      CappedWithout(a.list, k);
      ShapeWithout(a.list, k);
    }
  }

  lemma CloseOtherKeepsShape(a: Sys, id: nat)
    requires Inv(a) && !a.halted
    ensures Inv(CloseOther(a, id)) && !CloseOther(a, id).halted
  {
    ShapeFacts(a.list);
    if a.list != [] {
      CappedWithout(a.list, 0);
      ShapeWithout(a.list, 0);
      assert Without(a.list, 0) == a.list[1..];
    }
  }

  lemma CloseKeepsShape(a: Sys, id: nat)
    requires Inv(a) && !a.halted
    ensures Inv(Next(a, Close(id))) && !Next(a, Close(id)).halted
  {
    if id == PLAY_BACK {
      ClosePromptKeepsShape(a);
    } else {
      CloseOtherKeepsShape(a, id);
    }
  }

  /**
   The shape survives every message; the two assertions on the next element's kind never fail; the third
   one fails exactly when an unfiltered prompt meets a full list that already holds a prompt.
  */
  lemma NextKeepsShape(a: Sys, m: Msg)
    requires Inv(a) && !a.halted
    ensures Inv(Next(a, m))
    ensures Next(a, m).halted <==>
              m.Open? && IsPrompt(m.s) && !Filtered(a.list, m.s) && HasPrompt(a.list) && |a.list| == MAX_AUDIO_BUF_LIST
  {
    match m
    case Open(s) => OpenKeepsShape(a, s);
    case Close(id) => CloseKeepsShape(a, id);
    case _ =>
  }

  lemma {:induction false} RunKeepsShape(a: Sys, ms: seq<Msg>)
    requires Inv(a)
    ensures Inv(Run(a, ms))
    decreases |ms|
  {
    if ms != [] {
      if !a.halted {
        NextKeepsShape(a, ms[0]);
      }
      RunKeepsShape(Next(a, ms[0]), ms[1..]);
    }
  }

  // ---- What is open ----

  /** What should be playing: the first prompt queued if there is one, else the stream. */
  function Due(list: seq<Status>): Option<Status> {
    var k := FirstPrompt(list);
    if k < |list| then Some(list[k]) else if list == [] then None else Some(list[0])
  }

  predicate Agrees(a: Sys) { a.now == Due(a.list) }

  /**
   The messages after which the arbiter plays what it should. The others: opening an id nobody plays; a close
   that names a stream other than the one playing; and the two closes the factory loop needs, its own and
   that of the last prompt in front of it, since it is neither removed nor re-opened.
  */
  predicate Proper(list: seq<Status>, m: Msg) {
    match m
    case Open(s) => s.id < STREAM_NUM
    case Close(id) =>
      if id == PLAY_BACK then !(|list| == 2 && list[0].id == FACTORY_LOOP)
      else if |list| == 1 && IsStream(list[0]) then id == list[0].id
      else if |list| == 1 && list[0].id == FACTORY_LOOP then id != FACTORY_LOOP
      else true
    case _ => true
  }

  /** Everything queued can be played. */
  predicate Playable(list: seq<Status>) { forall i | 0 <= i < |list| :: list[i].id < STREAM_NUM }

  /** Each kind of message leaves the right thing playing exactly when it is proper. */
  lemma AgreementExact(a: Sys, m: Msg)
    requires Inv(a) && !a.halted && Playable(a.list) && Agrees(a) && !Next(a, m).halted
    ensures Agrees(Next(a, m)) <==> Proper(a.list, m)
    ensures Proper(a.list, m) ==> Playable(Next(a, m).list)
  {
    NextKeepsShape(a, m);
    ShapeFacts(a.list);
    ShapeFacts(Next(a, m).list);
    match m
    case Open(s) => OpenAgrees(a, s);
    case Close(id) => if id == PLAY_BACK { ClosePromptAgrees(a); } else { CloseOtherAgrees(a, id); }
    case _ =>
  }

  lemma OpenAgrees(a: Sys, s: Status)
    requires Inv(a) && !a.halted && Playable(a.list) && Agrees(a) && !DoOpen(a, s).halted
    ensures Agrees(DoOpen(a, s)) <==> Proper(a.list, Open(s))
    ensures Proper(a.list, Open(s)) ==> Playable(DoOpen(a, s).list)
  {
    ShapeFacts(a.list);
    if IsPrompt(s) {
      FirstPromptAppend(a.list, s);
    } else {
      assert FirstPrompt([s]) == 1 by { assert [s][1..] == []; }
    }
  }

  lemma ClosePromptAgrees(a: Sys)
    requires Inv(a) && !a.halted && Playable(a.list) && Agrees(a) && !ClosePrompt(a).halted
    ensures Agrees(ClosePrompt(a)) <==> Proper(a.list, Close(PLAY_BACK))
    ensures Playable(ClosePrompt(a).list)
  {
    var r := ClosePrompt(a).list;
    ShapeFacts(a.list);
    assert Shape(r);
    ShapeFacts(r);
    if |a.list| > 1 {
      assert IsPrompt(a.list[1]);
    }
  }

  lemma CloseOtherAgrees(a: Sys, id: nat)
    requires Inv(a) && !a.halted && Playable(a.list) && Agrees(a) && id != PLAY_BACK
    ensures Agrees(CloseOther(a, id)) <==> Proper(a.list, Close(id))
    ensures Playable(CloseOther(a, id).list)
  {
    var r := CloseOther(a, id).list;
    ShapeFacts(a.list);
    ShapeFacts(r);
    if |a.list| > 1 {
      assert IsPrompt(a.list[1]);
    }
  }

  lemma {:induction false} FirstPromptAppend(list: seq<Status>, s: Status)
    requires IsPrompt(s)
    ensures FirstPrompt(list + [s]) == FirstPrompt(list)
  {
    if list != [] {
      assert (list + [s])[1..] == list[1..] + [s];
      FirstPromptAppend(list[1..], s);
    }
  }

  /** Messages that are proper when they arrive, and none that halts. */
  predicate ProperRun(a: Sys, ms: seq<Msg>)
    decreases |ms|
  {
    ms == [] || (Proper(a.list, ms[0]) && !Next(a, ms[0]).halted && ProperRun(Next(a, ms[0]), ms[1..]))
  }

  lemma {:induction false} ProperRunsAgree(a: Sys, ms: seq<Msg>)
    requires Inv(a) && !a.halted && Playable(a.list) && Agrees(a) && ProperRun(a, ms)
    ensures Inv(Run(a, ms)) && Agrees(Run(a, ms)) && Playable(Run(a, ms).list)
    decreases |ms|
  {
    if ms != [] {
      NextKeepsShape(a, ms[0]);
      AgreementExact(a, ms[0]);
      ProperRunsAgree(Next(a, ms[0]), ms[1..]);
    }
  }

  function Closes(n: nat): seq<Msg> {
    if n == 0 then [] else [Close(PLAY_BACK)] + Closes(n - 1)
  }

  /** When the prompts in front of a stream have ended one by one, each had its turn and the stream plays again. */
  lemma {:induction false} StreamResumes(a: Sys, n: nat)
    requires Inv(a) && !a.halted && Agrees(a)
    requires |a.list| == n + 1 && IsStream(a.list[0])
    ensures Run(a, Closes(n)) == Sys([a.list[0]], Some(a.list[0]), false)
    ensures forall k | 1 <= k <= n :: Run(a, Closes(k - 1)).now == Some(a.list[k])
    decreases n
  {
    ShapeFacts(a.list);
    if n > 0 {
      var r := Next(a, Close(PLAY_BACK));
      CloseKeepsShape(a, PLAY_BACK);
      ClosePromptAgrees(a) by { assert Playable(a.list); }
      StreamResumes(r, n - 1);
      forall k | 1 <= k <= n ensures Run(a, Closes(k - 1)).now == Some(a.list[k]) {
        if k > 1 {
          assert Closes(k - 1)[1..] == Closes(k - 2);
          assert r.list[k - 1] == a.list[k];
        }
      }
      assert Closes(n)[1..] == Closes(n - 1);
    }
  }

  lemma RunCons(a: Sys, m: Msg, ms: seq<Msg>)
    ensures Run(a, [m] + ms) == Run(Next(a, m), ms)
  {
    assert ([m] + ms)[1..] == ms;
  }

  /** A close that names another stream while a prompt plays forgets the queued stream: nothing resumes. */
  lemma WrongCloseForgetsTheStream(s: Status, p: Status, other: nat)
    requires IsStream(s) && IsPrompt(p) && other != PLAY_BACK && other != s.id
    ensures Run(Start(), [Open(s)] + ([Open(p)] + ([Close(other)] + ([Close(PLAY_BACK)] + [])))) == Start()
  {
    var a1, a2, a3 := Sys([s], Some(s), false), Sys([s, p], Some(p), false), Sys([p], Some(p), false);
    RunCons(Start(), Open(s), [Open(p)] + ([Close(other)] + ([Close(PLAY_BACK)] + [])));
    RunCons(a1, Open(p), [Close(other)] + ([Close(PLAY_BACK)] + []));
    ShapeFacts(a1.list);
    assert Queued([s], p.aud) == 0 by { QueuedOne(s, p.aud); }
    QueuedOne(s, IncomingCall);
    QueuedOne(s, Warning);
    QueuedOne(s, Language);
    assert Next(a1, Open(p)) == a2;
    RunCons(a2, Close(other), [Close(PLAY_BACK)] + []);
    ShapeFacts(a2.list);
    assert Next(a2, Close(other)) == a3;
    RunCons(a3, Close(PLAY_BACK), []);
    ShapeFacts(a3.list);
    assert Next(a3, Close(PLAY_BACK)) == Start();
  }

  // ---- The code ----

  /** app_audio_conifg and gStreamplayer. */
  class Player {
    var list: seq<Status>
    var now: Option<Status>
    var halted: bool

    ghost function State(): Sys
      reads this
    {
      Sys(list, now, halted)
    }

    constructor ()
      ensures State() == Start()
    {
      list, now, halted := [], None, false;
    }

    /** Whether more than `limit` prompts of a kind are queued. */
    method CountExceeds(kind: Prompt, limit: nat) returns (exceeds: bool)
      ensures exceeds == (Queued(list, kind) > limit)
    {
      var cnt, i := 0, 0;
      while i < |list|
        invariant 0 <= i <= |list| && cnt == Queued(list[..i], kind) <= limit
      {
        assert list[..i + 1] == list[..i] + [list[i]];
        QueuedAppend(list[..i], [list[i]], kind);
        QueuedOne(list[i], kind);
        if list[i].id == PLAY_BACK && list[i].aud == kind {
          cnt := cnt + 1;
        }
        if cnt > limit {
          assert list == list[..i + 1] + list[i + 1..];
          QueuedAppend(list[..i + 1], list[i + 1..], kind);
          return true;
        }
        i := i + 1;
      }
      assert list[..i] == list;
      return false;
    }

    method FilterExist(s: Status) returns (filtered: bool)
      requires IsPrompt(s)
      ensures filtered == Filtered(list, s)
    {
      match s.aud
      case IncomingCall => filtered := CountExceeds(IncomingCall, 0);
      case Warning => filtered := CountExceeds(Warning, 3);
      case Language => filtered := CountExceeds(Language, 3);
      case OtherPrompt(_) => filtered := false;
    }

    method PlaybackExist() returns (exist: bool)
      ensures exist == HasPrompt(list)
    {
      var i := 0;
      while i < |list|
        invariant 0 <= i <= |list| && forall j | 0 <= j < i :: !IsPrompt(list[j])
      {
        if list[i].id == PLAY_BACK {
          return true;
        }
        i := i + 1;
      }
      return false;
    }

    method StreamExist() returns (exist: bool)
      ensures exist == HasStream(list)
    {
      var i := 0;
      while i < |list|
        invariant 0 <= i <= |list| && forall j | 0 <= j < i :: !IsStream(list[j])
      {
        if list[i].id < STREAMS {
          return true;
        }
        i := i + 1;
      }
      return false;
    }

    method StartStream(s: Status)
      modifies this`now
      ensures now == StreamOpen(s)
    {
      now := None;
      if s.id < STREAM_NUM {
        now := Some(s);
      }
    }

    method StopStream(id: nat)
      modifies this`now
      ensures now == StreamClose(old(now), id)
    {
      if now.Some? && now.value.id == id {
        now := None;
      }
    }

    /** app_audio_list_append; true when the new element is to be opened at once. */
    method ListAppend(s: Status) returns (start: bool)
      requires !halted
      modifies this`list, this`halted
      ensures DoOpen(old(State()), s) == Sys(list, if start && !halted then StreamOpen(s) else now, halted)
    {
      if s.id == PLAY_BACK {
        var filtered := FilterExist(s);
        if filtered {
          return false;
        }
        var exist := PlaybackExist();
        if exist {
          if |list| >= MAX_AUDIO_BUF_LIST {
            var stream := StreamExist();
            list := if stream then [list[0]] else [s];
            halted := true;
            return true;
          }
          list := list + [s];
          return false;
        }
        list := list + [s];
        return true;
      }
      list := [s];
      return true;
    }

    /** app_audio_list_rmv_callback: drops what was closed and says what to open next. */
    method RmvCallback(id: nat) returns (next: Option<Status>)
      requires !halted
      modifies this`list, this`halted
      ensures id == PLAY_BACK ==>
                Sys(list, if next.Some? then StreamOpen(next.value) else StreamClose(now, id), halted)
                == ClosePrompt(old(State()))
      ensures id != PLAY_BACK ==>
                next == None && CloseOther(old(State()), id) == Sys(list, StreamClose(now, id), halted)
    {
      next := None;
      if id == PLAY_BACK {
        var k := 0;
        while k < |list| && list[k].id != PLAY_BACK
          invariant 0 <= k <= FirstPrompt(list)
        {
          k := k + 1;
        }
        if k == |list| {
          return;
        }
        if k + 1 < |list| {
          if list[k + 1].id != PLAY_BACK {
            halted := true;
            return;
          }
          next := Some(list[k + 1]);
        } else {
          var stream := StreamExist();
          if stream {
            if list[0].id == PLAY_BACK {
              halted := true;
              return;
            }
            next := Some(list[0]);
          }
        }
        list := list[..k] + list[k + 1..];
      } else {
        var stream := StreamExist();
        if stream {
          list := list[1..];
        }
      }
    }

    /** app_audio_handle_process */
    method HandleProcess(m: Msg)
      requires !halted
      modifies this
      ensures State() == Next(old(State()), m)
    {
      match m {
        case Open(s) =>
          var start := ListAppend(s);
          if start && !halted {
            StartStream(s);
          }
        case Close(id) =>
          StopStream(id);
          var next := RmvCallback(id);
          if next.Some? && !halted {
            StartStream(next.value);
          }
        case CloseAll =>
          now := None;
          list := [];
        case SetupOrRestart =>
      }
    }
  }
}
