// What every run of the RTSP client keeps, when a user command is only given once the
// previous one has been waited for (rtsp_wait).
module RtspRuns {
  import opened Words
  import opened RtspMachine

  // The replies accepted since the requests of the current phase began.
  datatype Accepted = SetUp(sess: int, med: int) | Played(sess: int) | Paused(sess: int)

  function Media(queue: seq<Session>): (ms: seq<nat>)
    ensures |ms| == |queue|
  {
    seq(|queue|, k requires 0 <= k < |queue| => queue[k].media)
  }

  // One SETUP per medium of the sessions before s, then of the first m media of session s.
  function SetupsBefore(ms: seq<nat>, s: nat, m: nat): (r: seq<Accepted>)
    requires s <= |ms|
    decreases s, m
  {
    if m > 0 then SetupsBefore(ms, s, m - 1) + [SetUp(s, m - 1)]
    else if s > 0 then SetupsBefore(ms, s - 1, ms[s - 1])
    else []
  }

  function AllSetups(ms: seq<nat>): seq<Accepted> { SetupsBefore(ms, |ms|, 0) }

  function Plays(n: nat): (r: seq<Accepted>)
    ensures |r| == n
  {
    seq(n, k => Played(k))
  }

  function Pauses(n: nat): (r: seq<Accepted>)
    ensures |r| == n
  {
    seq(n, k => Paused(k))
  }

  // The channel pairs n SETUPs allocate, latest first.
  function Channels(n: nat): (r: seq<(byte, byte)>)
    ensures |r| == n
  {
    if n == 0 then [] else [(2 * (n - 1) % 0x100, (2 * (n - 1) + 1) % 0x100)] + Channels(n - 1)
  }

  predicate IsCommand(e: Event) { !e.Incoming? && !e.ServerDied? }

  // The log after a step: a phase starts with its first request, a reset empties the log.
  function Logged(c: Client, e: Event, log: seq<Accepted>): seq<Accepted>
    requires Ready(c)
  {
    var d := Step(c, e);
    match e
    case Incoming(_, _, _) =>
      if d.queue == [] then []
      else if c.res == SetupResponse then log + [SetUp(c.cursor.sess, c.cursor.med)]
      else if c.res == PlayResponse then log + [Played(c.cursor.sess)]
      else if c.res == PauseResponse then log + [Paused(c.cursor.sess)]
      else []
    case ServerDied => []
    case Close(_) => log
    case _ => if d.busy then [] else log
  }

  // ---- the invariant ----

  // What the log says in a state in which no phase is under way.
  ghost predicate Settled(c: Client, log: seq<Accepted>) {
    match c.status
    case INIT => c.queue == [] && log == []
    case READY => log == AllSetups(Media(c.queue)) || log == Pauses(|c.queue|)
    case PLAYING => log == Plays(|c.queue|)
    case RECORDING => false
  }

  ghost predicate Expecting(c: Client, withSession: bool) {
    && CursorInside(c) && c.cseq == c.queue[c.cursor.sess].cseq
    && (withSession ==> c.sessionId == c.queue[c.cursor.sess].id)
  }

  ghost predicate Phase(c: Client, log: seq<Accepted>) {
    match c.res
    case Nothing => Settled(c, log)
    case GetResponse => c.status == INIT && c.queue == [] && log == []
    case SetupResponse =>
      && c.status == INIT && Expecting(c, false)
      && log == SetupsBefore(Media(c.queue), c.cursor.sess, c.cursor.med)
    case PlayResponse => (c.status == READY || c.status == PLAYING) && Expecting(c, true) && log == Plays(c.cursor.sess)
    case PauseResponse => c.status == PLAYING && Expecting(c, true) && log == Pauses(c.cursor.sess)
    case CloseResponse => c.status != INIT && Expecting(c, true) && Settled(c, log)
  }

  ghost predicate Allocated(c: Client, n: nat) {
    c.nextChannel == Wrap16(2 * n) && c.interleaved == Channels(n)
  }

  ghost predicate ChannelsRight(c: Client, log: seq<Accepted>) {
    if c.queue == [] then Allocated(c, 0)
    else if c.status == INIT then Allocated(c, |log| + 1)
    else Allocated(c, |AllSetups(Media(c.queue))|)
  }

  ghost predicate Good(c: Client, log: seq<Accepted>) {
    && Ready(c) && Phase(c, log) && ChannelsRight(c, log)
    && (c.busy <==> c.res != Nothing)
  }

  lemma StartGood()
    ensures Good(START, [])
  {
  }

  lemma ReinitGood(c: Client)
    ensures Good(Reinit(c), [])
  {
  }

  lemma SentFacts(c: Client, res: Awaited, withSession: bool, sent: bool)
    requires Ready(c.(res := Nothing)) && 0 <= c.cursor.sess < |c.queue|
    ensures var d := Sent(c, res, withSession, sent);
            && Media(d.queue) == Media(c.queue) && |d.queue| == |c.queue|
            && d.status == c.status && d.cursor == c.cursor && d.busy == c.busy
            && d.nextChannel == c.nextChannel && d.interleaved == c.interleaved
            && d.res == (if sent then res else Nothing)
            && (forall k :: 0 <= k < |d.queue| ==> d.queue[k].media == c.queue[k].media)
            && (CursorInside(c) ==> Expecting(d, withSession))
  {
  }

  lemma CommandGood(c: Client, res: Awaited, sent: bool, log: seq<Accepted>)
    requires Good(c, log) && !c.busy && c.status != INIT
    requires res == PlayResponse || (res == PauseResponse && c.status == PLAYING) || res == CloseResponse
    ensures var d := Commanded(c, res, sent);
            Good(d, if sent && res != CloseResponse then [] else log)
  {
    SentFacts(AtFirst(c), res, true, sent);
    assert Media(Commanded(c, res, sent).queue) == Media(c.queue);
  }

  lemma UserStepGood(c: Client, e: Event, log: seq<Accepted>)
    requires Good(c, log) && IsCommand(e) && !c.busy
    ensures Good(Step(c, e), Logged(c, e, log))
  {
    match e
    case Play(licensed, sent) => if c.status != INIT { CommandGood(c, PlayResponse, sent, log); }
    case Pause(sent) => if c.status == PLAYING { CommandGood(c, PauseResponse, sent, log); }
    case Close(sent) => if c.status != INIT { CommandGood(c, CloseResponse, sent, log); }
    case _ =>
  }

  lemma AllocateMore(c: Client, n: nat)
    requires Allocated(c, n)
    ensures Allocated(WithChannels(c), n + 1)
  {
    ChannelBytes(2 * n);
    ChannelBytes(2 * n + 1);
  }

  lemma ChannelBytes(x: nat)
    ensures Wrap16(x) % 0x100 == x % 0x100
    ensures Wrap16(Wrap16(x) + 1) == Wrap16(x + 1) && Wrap16(Wrap16(x) + 2) == Wrap16(x + 2)
  {
    LowBits(x);
    WrapLess(x + 1, x / 0x1_0000);
    WrapLess(x + 2, x / 0x1_0000);
  }

  lemma WrapLess(x: int, q: int)
    ensures Wrap16(x - q * 0x1_0000) == Wrap16(x)
  {
  }

  lemma DescribedGood(c: Client, r: Reply, licensed: bool, sent: bool, log: seq<Accepted>)
    requires Good(c, log) && c.res == GetResponse && Matches(c, r)
    ensures var e := Incoming(r, licensed, sent); Good(Step(c, e), Logged(c, e, log))
  {
    if Success(r.code) && Usable(r.described) && sent {
      var d := WithChannels(AtFirst(Cleared(c, r.code).(queue := Opened(r.described))));
      AllocateMore(AtFirst(Cleared(c, r.code)), 0);
      SentFacts(d, SetupResponse, false, sent);
    }
  }

  // The sequence of SETUPs goes on where the cursor goes.
  lemma SetupsFollowCursor(ms: seq<nat>, s: nat, m: nat)
    requires s < |ms| && m < ms[s]
    ensures SetupsBefore(ms, s, m) + [SetUp(s, m)] ==
            if m + 1 < ms[s] then SetupsBefore(ms, s, m + 1) else SetupsBefore(ms, s + 1, 0)
  {
  }

  // The client after an accepted SETUP, before the next request: Session_ID recorded.
  function SetUpNamed(c: Client, r: Reply): Client
    requires CursorInside(c) && r.Reply?
  {
    var s := c.queue[c.cursor.sess];
    var named := match r.session case Id(i) => s.(id := i) case _ => s;
    Cleared(c, r.code).(queue := c.queue[c.cursor.sess := named])
  }

  lemma SetUpStep(c: Client, r: Reply, licensed: bool, sent: bool)
    requires Ready(c) && c.status == INIT && c.res == SetupResponse && Matches(c, r)
    ensures var d, e := NextMedium(SetUpNamed(c, r)), Incoming(r, licensed, sent);
            Step(c, e) ==
              if !Success(r.code) then Reinit(c.(responseId := r.code))
              else if d.cursor.sess == -1 then Idle(d, READY)
              else if sent then Sent(WithChannels(d), SetupResponse, false, true)
              else Reinit(Sent(WithChannels(d), SetupResponse, false, false))
  {
  }

  lemma SetUpGood(c: Client, r: Reply, licensed: bool, sent: bool, log: seq<Accepted>)
    requires Good(c, log) && c.res == SetupResponse && Matches(c, r)
    ensures var e := Incoming(r, licensed, sent);
            && Good(Step(c, e), Logged(c, e, log))
            && (Step(c, e).status != INIT ==>
                  Step(c, e).status == READY && Logged(c, e, log) == AllSetups(Media(Step(c, e).queue)))
  {
    SetUpStep(c, r, licensed, sent);
    var b := SetUpNamed(c, r);
    assert Media(b.queue) == Media(c.queue);
    SetupsFollowCursor(Media(c.queue), c.cursor.sess, c.cursor.med);
    if !Success(r.code) {
      ReinitGood(c.(responseId := r.code));
    } else if NextMedium(b).cursor.sess != -1 {
      NextSetUpGood(c, NextMedium(b), sent, log);
    } else {
      LastSetUpGood(c, NextMedium(b), log);
    }
  }

  // After the last SETUP: d has the cursor past the end.
  lemma LastSetUpGood(c: Client, d: Client, log: seq<Accepted>)
    requires Good(c, log) && c.res == SetupResponse
    requires d.status == INIT && d.res == Nothing && d.queue != [] && Media(d.queue) == Media(c.queue)
    requires d.nextChannel == c.nextChannel && d.interleaved == c.interleaved
    requires AllSetups(Media(c.queue)) == log + [SetUp(c.cursor.sess, c.cursor.med)]
    ensures Good(Idle(d, READY), log + [SetUp(c.cursor.sess, c.cursor.med)])
  {
    forall k | 0 <= k < |d.queue| ensures d.queue[k].media > 0 {
      assert Media(d.queue)[k] == Media(c.queue)[k];
    }
  }

  // Sending the next SETUP: d has the cursor moved to the next medium.
  lemma NextSetUpGood(c: Client, d: Client, sent: bool, log: seq<Accepted>)
    requires Good(c, log) && c.res == SetupResponse
    requires d.status == INIT && d.busy && d.res == Nothing && CursorInside(d)
    requires d.nextChannel == c.nextChannel && d.interleaved == c.interleaved
    requires Media(d.queue) == Media(c.queue)
    requires SetupsBefore(Media(c.queue), d.cursor.sess, d.cursor.med) == log + [SetUp(c.cursor.sess, c.cursor.med)]
    ensures var f := Sent(WithChannels(d), SetupResponse, false, sent);
            if sent then Good(f, log + [SetUp(c.cursor.sess, c.cursor.med)]) && f.queue != [] && f.status == INIT
            else Good(Reinit(f), [])
  {
    AllocateMore(d, |log| + 1);
    forall k | 0 <= k < |d.queue| ensures d.queue[k].media > 0 {
      assert Media(d.queue)[k] == Media(c.queue)[k];
    }
    SentFacts(WithChannels(d), SetupResponse, false, sent);
    ReinitGood(Sent(WithChannels(d), SetupResponse, false, sent));
  }

  // What can become of an awaited PLAY or PAUSE reply.
  lemma PlayOrPauseStep(c: Client, r: Reply, licensed: bool, sent: bool)
    requires c.status != RECORDING && Ready(c)
    requires (c.res == PlayResponse || c.res == PauseResponse) && Matches(c, r)
    ensures var d, f := NextSession(Cleared(c, r.code)), Step(c, Incoming(r, licensed, sent));
            || f == Reinit(c) || f == Reinit(c.(responseId := r.code)) || f == Reinit(d)
            || (d.cursor.sess != -1 && f == Reinit(Sent(d, c.res, true, false)))
            || (Legal(c.status, c.res) && d.cursor.sess != -1 && f == Sent(d, c.res, true, true))
            || (&& Legal(c.status, c.res) && d.cursor.sess == -1
                && f == Idle(d, if c.res == PlayResponse then PLAYING else READY))
  {
  }

  // The log of per-session replies grows with the cursor.
  lemma PlaysGrow(n: nat)
    ensures Plays(n) + [Played(n)] == Plays(n + 1) && Pauses(n) + [Paused(n)] == Pauses(n + 1)
  {
  }

  lemma SessionGood(c: Client, code: nat, log: seq<Accepted>)
    requires Good(c, log) && (c.res == PlayResponse || c.res == PauseResponse) && Legal(c.status, c.res)
    ensures var d, s := NextSession(Cleared(c, code)), c.cursor.sess;
            if d.cursor.sess != -1 then
              && (c.res == PlayResponse ==> Good(Sent(d, c.res, true, true), log + [Played(s)]))
              && (c.res == PauseResponse ==> Good(Sent(d, c.res, true, true), log + [Paused(s)]))
            else
              && (c.res == PlayResponse ==>
                    log + [Played(s)] == Plays(|d.queue|) && Good(Idle(d, PLAYING), log + [Played(s)]))
              && (c.res == PauseResponse ==>
                    log + [Paused(s)] == Pauses(|d.queue|) && Good(Idle(d, READY), log + [Paused(s)]))
  {
    var d := NextSession(Cleared(c, code));
    PlaysGrow(c.cursor.sess);
    if d.cursor.sess != -1 { SentFacts(d, c.res, true, true); }
  }

  lemma PlayOrPauseGood(c: Client, r: Reply, licensed: bool, sent: bool, log: seq<Accepted>)
    requires Good(c, log) && (c.res == PlayResponse || c.res == PauseResponse) && Matches(c, r)
    ensures var d, more := Step(c, Incoming(r, licensed, sent)), Logged(c, Incoming(r, licensed, sent), log);
            && Good(d, more)
            && (d.status == READY && c.status == PLAYING ==> more == Pauses(|d.queue|))
            && (d.status == PLAYING && c.status == READY ==> more == Plays(|d.queue|))
  {
    PlayOrPauseStep(c, r, licensed, sent);
    var f := Step(c, Incoming(r, licensed, sent));
    if f.status == INIT {
      assert Good(f, []);
    } else {
      SessionGood(c, r.code, log);
    }
  }

  // Every step keeps the invariant, if commands are given only while the client is not busy.
  lemma StepGood(c: Client, e: Event, log: seq<Accepted>)
    requires Good(c, log) && (IsCommand(e) ==> !c.busy)
    ensures Good(Step(c, e), Logged(c, e, log))
  {
    if IsCommand(e) {
      UserStepGood(c, e, log);
    } else if e.Incoming? && Matches(c, e.reply) {
      match c.res
      case GetResponse => DescribedGood(c, e.reply, e.licensed, e.sent, log);
      case SetupResponse => SetUpGood(c, e.reply, e.licensed, e.sent, log);
      case PlayResponse => PlayOrPauseGood(c, e.reply, e.licensed, e.sent, log);
      case PauseResponse => PlayOrPauseGood(c, e.reply, e.licensed, e.sent, log);
      case _ =>
    } else {
      ReinitGood(c);
    }
  }

  // ---- whole runs ----

  // Commands are given only while the client is not busy.
  ghost predicate Disciplined(c: Client, events: seq<Event>)
    decreases |events|
  {
    events != [] ==>
      && (IsCommand(events[0]) ==> !c.busy)
      && (Ready(c) ==> Disciplined(Step(c, events[0]), events[1..]))
  }

  ghost function Run(c: Client, log: seq<Accepted>, events: seq<Event>): (Client, seq<Accepted>)
    decreases |events|
  {
    if events == [] || !Ready(c) then (c, log) else Run(Step(c, events[0]), Logged(c, events[0], log), events[1..])
  }

  lemma {:induction false} RunGood(c: Client, log: seq<Accepted>, events: seq<Event>)
    requires Good(c, log) && Disciplined(c, events)
    ensures Good(Run(c, log, events).0, Run(c, log, events).1)
    decreases |events|
  {
    if events != [] {
      StepGood(c, events[0], log);
      RunGood(Step(c, events[0]), Logged(c, events[0], log), events[1..]);
    }
  }

  // No command of a disciplined run finds the client in a state it cannot handle.
  lemma {:induction false} StepsDefined(c: Client, log: seq<Accepted>, e: Event)
    requires Good(c, log) && (IsCommand(e) ==> !c.busy)
    ensures Ready(Step(c, e)) && Step(c, e).status != RECORDING
  {
    StepGood(c, e, log);
  }

  // Status changes: READY only after one accepted SETUP per medium in order (or one PAUSE
  // per session, coming from PLAYING); PLAYING only after one PLAY per session.
  lemma StatusChanges(c: Client, e: Event, log: seq<Accepted>)
    requires Good(c, log) && (IsCommand(e) ==> !c.busy)
    ensures var d, more := Step(c, e), Logged(c, e, log);
            && (d.status == READY && c.status != READY ==>
                  || (c.status == INIT && more == AllSetups(Media(d.queue)))
                  || (c.status == PLAYING && more == Pauses(|d.queue|)))
            && (d.status == PLAYING && c.status != PLAYING ==> c.status == READY && more == Plays(|d.queue|))
            && d.status != RECORDING
  {
    if e.Incoming? && Matches(c, e.reply) {
      match c.res
      case SetupResponse => SetUpGood(c, e.reply, e.licensed, e.sent, log);
      case PlayResponse => PlayOrPauseGood(c, e.reply, e.licensed, e.sent, log);
      case PauseResponse => PlayOrPauseGood(c, e.reply, e.licensed, e.sent, log);
      case _ =>
    }
  }

  // A reply that does not match what is awaited, or arrives unasked, resets the client.
  lemma UnmatchedResets(c: Client, r: Reply, licensed: bool, sent: bool, log: seq<Accepted>)
    requires Good(c, log) && !Matches(c, r)
    ensures var d := Step(c, Incoming(r, licensed, sent));
            && d.status == INIT && d.queue == [] && d.res == Nothing && !d.busy
            && Good(d, [])
  {
    ReinitGood(c);
  }

  // AllSetups names every medium, and no medium twice: it is strictly increasing in
  // session-then-medium order.
  ghost predicate Earlier(a: Accepted, s: int, m: int) {
    a.SetUp? && (a.sess < s || (a.sess == s && a.med < m))
  }

  ghost predicate Before(a: Accepted, b: Accepted) { b.SetUp? && Earlier(a, b.sess, b.med) }

  lemma {:induction false} SetupsOrdered(ms: seq<nat>, s: nat, m: nat)
    requires s <= |ms| && (s < |ms| ==> m <= ms[s]) && (s == |ms| ==> m == 0)
    ensures forall k :: 0 <= k < |SetupsBefore(ms, s, m)| ==> Earlier(SetupsBefore(ms, s, m)[k], s, m)
    ensures forall j, k :: 0 <= j < k < |SetupsBefore(ms, s, m)| ==>
              Before(SetupsBefore(ms, s, m)[j], SetupsBefore(ms, s, m)[k])
    ensures forall i: nat, j: nat :: i < |ms| && j < ms[i] && (i < s || (i == s && j < m)) ==>
              SetUp(i, j) in SetupsBefore(ms, s, m)
    decreases s, m
  {
    if m > 0 {
      SetupsOrdered(ms, s, m - 1);
    } else if s > 0 {
      SetupsOrdered(ms, s - 1, ms[s - 1]);
    }
  }

  lemma EachMediumOnce(ms: seq<nat>)
    ensures forall i: nat, j: nat :: i < |ms| && j < ms[i] ==> SetUp(i, j) in AllSetups(ms)
    ensures forall j, k :: 0 <= j < k < |AllSetups(ms)| ==>
              Before(AllSetups(ms)[j], AllSetups(ms)[k])
  {
    SetupsOrdered(ms, |ms|, 0);
  }
}
