// rtsp_wait and the busy flag: no wake-up is lost, and a server that answers success ends
// every command after a known number of replies.
module RtspProgress {
  import opened RtspMachine
  import opened RtspRuns
  import opened RtspRequests

  // A reply that grants the latest request: it answers it, with any success code.
  predicate Grants(c: Client, r: Reply, described: seq<nat>) {
    && c.res != Nothing && c.requests != [] && Answers(r, Latest(c))
    && 200 <= r.code < 300 && (c.res == GetResponse ==> r.described == described)
  }

  function Served(c: Client, r: Reply): Client
    requires Ready(c)
  {
    Step(c, Incoming(r, true, true))
  }

  // How many more replies the current command takes.
  function Remaining(c: Client, described: seq<nat>): int
    requires Ready(c)
  {
    match c.res
    case Nothing => 0
    case GetResponse => 1 + |AllSetups(described)|
    case SetupResponse => |AllSetups(Media(c.queue))| - |SetupsBefore(Media(c.queue), c.cursor.sess, c.cursor.med)|
    case PlayResponse => if c.status == READY then |c.queue| - c.cursor.sess else 1
    case PauseResponse => |c.queue| - c.cursor.sess
    case CloseResponse => 1
  }

  // The status the command leads to. PLAY while already PLAYING ends in a reset.
  function Target(c: Client): Status {
    match c.res
    case Nothing => c.status
    case GetResponse => READY
    case SetupResponse => READY
    case PlayResponse => if c.status == READY then PLAYING else INIT
    case PauseResponse => READY
    case CloseResponse => INIT
  }

  lemma {:induction false} LaterSessions(ms: seq<nat>, s: nat, t: nat)
    requires s <= t <= |ms|
    ensures |SetupsBefore(ms, s, 0)| <= |SetupsBefore(ms, t, 0)|
    decreases t - s
  {
    if s < t {
      LaterSessions(ms, s, t - 1);
      MoreMedia(ms, t - 1, ms[t - 1]);
    }
  }

  lemma {:induction false} MoreMedia(ms: seq<nat>, s: nat, m: nat)
    requires s < |ms|
    ensures |SetupsBefore(ms, s, m)| == |SetupsBefore(ms, s, 0)| + m
  {
    if m > 0 { MoreMedia(ms, s, m - 1); }
  }

  lemma SetupsLeft(ms: seq<nat>, s: nat, m: nat)
    requires s < |ms| && m < ms[s]
    ensures |SetupsBefore(ms, s, m)| < |AllSetups(ms)|
  {
    MoreMedia(ms, s, m);
    MoreMedia(ms, s, ms[s]);
    LaterSessions(ms, s + 1, |ms|);
  }

  lemma RemainingPositive(c: Client, log: seq<Accepted>, described: seq<nat>)
    requires Good(c, log) && c.busy
    ensures Remaining(c, described) > 0
  {
    if c.res == SetupResponse { SetupsLeft(Media(c.queue), c.cursor.sess, c.cursor.med); }
  }

  lemma GetServed(c: Client, r: Reply, described: seq<nat>, log: seq<Accepted>)
    requires Good(c, log) && Asked(c) && c.res == GetResponse && Grants(c, r, described) && Usable(described)
    ensures var d := Served(c, r);
            && Ready(d) && d.res == SetupResponse && d.responseId == r.code
            && Remaining(d, described) == Remaining(c, described) - 1
  {
    AcceptedIff(c, r);
    DescribedGood(c, r, true, true, log);
    assert Media(Opened(described)) == described;
    var d := WithChannels(AtFirst(Cleared(c, r.code).(queue := Opened(described))));
    SentFacts(d, SetupResponse, false, true);
  }

  lemma SetUpServed(c: Client, r: Reply, described: seq<nat>, log: seq<Accepted>)
    requires Good(c, log) && Asked(c) && c.res == SetupResponse && Grants(c, r, described)
    ensures var d := Served(c, r);
            && Ready(d) && Remaining(d, described) == Remaining(c, described) - 1 && d.responseId == r.code
            && (d.res == SetupResponse || (AtRest(d) && d.status == READY))
  {
    AcceptedIff(c, r);
    SetUpGood(c, r, true, true, log);
    SetUpStep(c, r, true, true);
    var b := SetUpNamed(c, r);
    assert Media(b.queue) == Media(c.queue);
    SetupsFollowCursor(Media(c.queue), c.cursor.sess, c.cursor.med);
    var d := NextMedium(b);
    if d.cursor.sess != -1 { NextSetUpGood(c, d, true, log); SentFacts(WithChannels(d), SetupResponse, false, true); }
  }

  lemma CloseServed(c: Client, r: Reply, described: seq<nat>, log: seq<Accepted>)
    requires Good(c, log) && c.res == CloseResponse && Asked(c) && Grants(c, r, described)
    ensures var d := Served(c, r); Ready(d) && AtRest(d) && d.status == INIT && d.responseId == r.code
  {
    AcceptedIff(c, r);
  }

  lemma SessionServed(c: Client, r: Reply, described: seq<nat>, log: seq<Accepted>)
    requires Good(c, log) && (c.res == PlayResponse || c.res == PauseResponse)
    requires Asked(c) && Grants(c, r, described)
    ensures var d := Served(c, r);
            && Ready(d) && Remaining(d, described) == Remaining(c, described) - 1
            && (if d.res == Nothing then d.status == Target(c) else d.res == c.res && d.status == c.status)
            && (d.status != INIT ==> d.responseId == r.code) && (d.res == Nothing && d.status != INIT ==> AtRest(d))
  {
    AcceptedIff(c, r);
    StepGood(c, Incoming(r, true, true), log);
    var d := NextSession(Cleared(c, r.code));
    if d.cursor.sess != -1 { SentFacts(d, c.res, true, true); }
  }

  // The reply code reaches the user, unless the command ends in a reset.
  predicate Reported(c: Client, d: Client, r: Reply) {
    r.Reply? && (Target(c) != INIT || c.res == CloseResponse ==> d.responseId == r.code)
  }

  // Nothing is left of the last request, and the cursor is NULL.
  predicate AtRest(c: Client) { c.res == Nothing && c.cseq == 0 && c.sessionId == "" && c.cursor == START.cursor }

  // Each granting reply brings the command one step nearer to its end.
  lemma ServedAdvances(c: Client, r: Reply, described: seq<nat>, log: seq<Accepted>)
    requires Good(c, log) && Asked(c) && c.busy && Usable(described) && Grants(c, r, described)
    ensures var d := Served(c, r);
            && Ready(d) && Remaining(d, described) == Remaining(c, described) - 1 && Reported(c, d, r)
            && (d.res == Nothing ==> d.status == Target(c))
            && (d.res == Nothing && (Target(c) != INIT || c.res == CloseResponse) ==> AtRest(d))
            && (d.res != Nothing ==> Target(d) == Target(c) && (d.res == CloseResponse <==> c.res == CloseResponse))
  {
    match c.res
    case GetResponse => GetServed(c, r, described, log);
    case SetupResponse => SetUpServed(c, r, described, log);
    case CloseResponse => CloseServed(c, r, described, log);
    case _ => SessionServed(c, r, described, log);
  }

  // rtsp_wait: the loop on the busy flag, while the replies come in.
  function AfterReplies(c: Client, rs: seq<Reply>): Client
    decreases |rs|
  {
    if rs == [] || !Ready(c) then c else AfterReplies(Served(c, rs[0]), rs[1..])
  }

  // Each reply grants what is asked when it comes.
  predicate AllGranted(c: Client, rs: seq<Reply>, described: seq<nat>)
    decreases |rs|
  {
    rs != [] ==>
      Grants(c, rs[0], described) && (Ready(c) ==> AllGranted(Served(c, rs[0]), rs[1..], described))
  }

  // The client stays busy for exactly Remaining(c) granting replies, takes no more, and then
  // has the target status.
  lemma {:induction false} WaitReturns(c: Client, rs: seq<Reply>, described: seq<nat>, log: seq<Accepted>)
    requires Good(c, log) && Kept(c) && c.busy && Usable(described) && AllGranted(c, rs, described)
    ensures var d := AfterReplies(c, rs);
            && |rs| <= Remaining(c, described) && (d.busy <==> |rs| < Remaining(c, described))
            && (!d.busy ==> rs != [] && d.status == Target(c) && Reported(c, d, rs[|rs| - 1]))
    decreases |rs|
  {
    RemainingPositive(c, log, described);
    if rs != [] {
      var e := Incoming(rs[0], true, true);
      StepGood(c, e, log);
      StepKept(c, e, log);
      ServedAdvances(c, rs[0], described, log);
      var d := Served(c, rs[0]);
      if d.busy {
        WaitReturns(d, rs[1..], described, Logged(c, e, log));
      }
    }
  }

  // ---- whatever the server answers ----

  // The loop of rtsp_wait over any replies, the connection's death among them.
  function Waited(c: Client, es: seq<Event>): Client
    decreases |es|
  {
    if es == [] || !c.busy || !Ready(c) then c else Waited(Step(c, es[0]), es[1..])
  }

  // The description the first of them carries.
  function Told(es: seq<Event>): seq<nat> {
    if es != [] && es[0].Incoming? && es[0].reply.Reply? then es[0].reply.described else []
  }

  // Anything but a granting reply ends the wait with a reset.
  lemma GrantsOrEnds(c: Client, e: Event, log: seq<Accepted>)
    requires Good(c, log) && Asked(c) && c.busy && !IsCommand(e)
    ensures var d := Step(c, e);
            || (!d.busy && d.status == INIT)
            || (&& e.Incoming? && Grants(c, e.reply, Told([e])) && d == Served(c, e.reply)
                && (c.res == GetResponse ==> Usable(e.reply.described)))
  {
    if e.Incoming? { AcceptedIff(c, e.reply); }
    if e.Incoming? && Matches(c, e.reply) && c.res == SetupResponse {
      SetUpStep(c, e.reply, e.licensed, e.sent);
      SetUpStep(c, e.reply, true, true);
    }
  }

  // Whatever comes, rtsp_wait returns within Remaining(c) messages, in INIT or with the
  // target status.
  lemma {:induction false} WaitEnds(c: Client, es: seq<Event>, log: seq<Accepted>)
    requires Good(c, log) && Kept(c) && (forall k :: 0 <= k < |es| ==> !IsCommand(es[k]))
    requires c.busy && |es| >= Remaining(c, Told(es))
    ensures var d := Waited(c, es); !d.busy && (d.status == INIT || d.status == Target(c))
    decreases |es|
  {
    RemainingPositive(c, log, Told(es));
    var e := es[0];
    StepGood(c, e, log);
    StepKept(c, e, log);
    GrantsOrEnds(c, e, log);
    var d := Step(c, e);
    if d.busy || d.status != INIT {
      ServedAdvances(c, e.reply, if c.res == GetResponse then e.reply.described else [1], log);
      if d.busy { WaitEnds(d, es[1..], Logged(c, e, log)); }
    }
  }

  // A command refused by its own checks clears the busy flag, whatever is outstanding.
  predicate Refused(c: Client, e: Event) {
    match e
    case Open(connected, _) => c.status != INIT || !connected
    case Play(licensed, _) => c.status == INIT || c.status == RECORDING || !licensed
    case Pause(_) => c.status == INIT || c.status == READY
    case Close(_) => c.status == INIT
    case _ => false
  }

  // A command given while a request is outstanding keeps "busy exactly while waiting" if and
  // only if it is not refused.
  lemma BusyCommandIff(c: Client, e: Event, log: seq<Accepted>)
    requires Good(c, log) && c.busy && IsCommand(e)
    ensures var d := Step(c, e); (d.busy <==> d.res != Nothing) <==> !Refused(c, e)
  {
  }

  // Such a lost wake-up: asked to PAUSE during the SETUPs, the client stops being busy while
  // the SETUP reply is still to come.
  lemma LostWakeUp(c: Client, log: seq<Accepted>)
    requires Good(c, log) && c.res == SetupResponse
    ensures var d := Step(c, Pause(true)); !d.busy && d.res == SetupResponse
  {
  }
}
