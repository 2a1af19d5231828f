// The requests of a connection: how they are numbered, and which replies answer them
// (sections 12.17 and 12.37 of RFC 2326).
module RtspRequests {
  import opened RtspMachine
  import opened RtspRuns

  predicate InSession(kind: Awaited) { kind == PlayResponse || kind == PauseResponse || kind == CloseResponse }

  // The reply of a server to request q: its CSeq, and on PLAY, PAUSE and TEARDOWN no Session
  // header or that of q.
  predicate Answers(r: Reply, q: Request) {
    r.Reply? && r.cseq == q.cseq && (InSession(q.kind) ==> r.session == Absent || r.session == Id(q.session))
  }

  function Latest(c: Client): Request
    requires c.requests != []
  {
    c.requests[|c.requests| - 1]
  }

  // What is awaited is the reply to the latest request, and that request was written.
  ghost predicate Asked(c: Client) {
    c.res != Nothing ==>
      && c.requests != [] && Latest(c).written && Latest(c).kind == c.res
      && Latest(c).cseq == (if c.res == GetResponse then 1 else c.cseq)
      && (InSession(c.res) ==> Latest(c).session == c.sessionId)
  }

  // check_response accepts the replies that answer the latest request, and no others.
  lemma AcceptedIff(c: Client, r: Reply)
    requires Asked(c)
    ensures Matches(c, r) <==> c.res != Nothing && Answers(r, Latest(c))
  {
  }

  // How many of the requests went to session s.
  function CountFor(qs: seq<Request>, s: int): (n: nat)
    ensures n <= |qs|
  {
    if qs == [] then 0 else CountFor(qs[..|qs| - 1], s) + if qs[|qs| - 1].sess == s then 1 else 0
  }

  // The requests of each session carry 2, 3, 4, ... in the order they were put together (1 is
  // that of DESCRIBE), written or not.
  ghost predicate Numbered(c: Client) {
    && (forall k :: 0 <= k < |c.requests| ==> NumberRight(c.requests, k))
    && (forall s :: 0 <= s < |c.queue| ==> c.queue[s].cseq == 1 + CountFor(c.requests, s))
    && (c.queue == [] ==> forall k :: 0 <= k < |c.requests| ==> c.requests[k].sess == -1)
  }

  ghost predicate NumberRight(qs: seq<Request>, k: nat)
    requires k < |qs|
  {
    if qs[k].sess == -1 then qs[k].kind == GetResponse && qs[k].cseq == 1
    else qs[k].sess >= 0 && qs[k].cseq == 1 + CountFor(qs[..k + 1], qs[k].sess)
  }

  lemma OneMore(qs: seq<Request>, q: Request, s: int)
    ensures CountFor(qs + [q], s) == CountFor(qs, s) + if q.sess == s then 1 else 0
  {
    assert (qs + [q])[..|qs|] == qs;
  }

  ghost predicate Kept(c: Client) { Asked(c) && Numbered(c) }

  lemma SentKept(c: Client, res: Awaited, sent: bool)
    requires Numbered(c) && 0 <= c.cursor.sess < |c.queue| && (res == SetupResponse || InSession(res))
    ensures Kept(Sent(c, res, InSession(res), sent))
  {
    var d := Sent(c, res, InSession(res), sent);
    var q := Latest(d);
    forall k | 0 <= k < |d.requests| ensures NumberRight(d.requests, k) {
      if k < |c.requests| {
        assert NumberRight(c.requests, k);
        assert d.requests[..k + 1] == c.requests[..k + 1];
      } else {
        assert d.requests[..k + 1] == c.requests + [q];
        OneMore(c.requests, q, c.cursor.sess);
      }
    }
    forall s | 0 <= s < |d.queue| ensures d.queue[s].cseq == 1 + CountFor(d.requests, s) {
      OneMore(c.requests, q, s);
    }
  }

  // Sessions as set_rtsp_sessions makes them have used number 1.
  lemma OpenedNumbered(c: Client, described: seq<nat>, d: Client)
    requires Numbered(c) && c.queue == [] && d.queue == Opened(described) && d.requests == c.requests
    ensures d.queue != [] ==> Numbered(d)
  {
    forall s | 0 <= s < |d.queue| ensures d.queue[s].cseq == 1 + CountFor(d.requests, s) {
      NoneOf(c.requests, s);
    }
    forall k | 0 <= k < |d.requests| ensures NumberRight(d.requests, k) {
      assert NumberRight(c.requests, k);
    }
  }

  // Nothing but numbers and requests matters.
  lemma SameNumbers(c: Client, d: Client)
    requires Numbered(c) && d.requests == c.requests && |d.queue| == |c.queue|
    requires forall k :: 0 <= k < |c.queue| ==> d.queue[k].cseq == c.queue[k].cseq
    ensures Numbered(d)
  {
    forall k | 0 <= k < |d.requests| ensures NumberRight(d.requests, k) { assert NumberRight(c.requests, k); }
  }

  lemma ReinitKept(c: Client)
    ensures Kept(Reinit(c))
  {
  }

  lemma DescribedKept(c: Client, r: Reply, licensed: bool, sent: bool, log: seq<Accepted>)
    requires Good(c, log) && Kept(c) && c.res == GetResponse && Matches(c, r)
    ensures Kept(Step(c, Incoming(r, licensed, sent)))
  {
    var base := WithChannels(AtFirst(Cleared(c, r.code).(queue := Opened(r.described))));
    if Success(r.code) && Usable(r.described) && sent {
      OpenedNumbered(c, r.described, base);
      SentKept(base, SetupResponse, sent);
    }
  }

  lemma SetUpKept(c: Client, r: Reply, licensed: bool, sent: bool, log: seq<Accepted>)
    requires Good(c, log) && Kept(c) && c.res == SetupResponse && Matches(c, r)
    ensures Kept(Step(c, Incoming(r, licensed, sent)))
  {
    SetUpStep(c, r, licensed, sent);
    var d := NextMedium(SetUpNamed(c, r));
    SameNumbers(c, Idle(d, READY));
    SameNumbers(c, WithChannels(d));
    if d.cursor.sess != -1 { SentKept(WithChannels(d), SetupResponse, true); }
  }

  lemma PlayOrPauseKept(c: Client, r: Reply, licensed: bool, sent: bool, log: seq<Accepted>)
    requires Good(c, log) && Kept(c) && (c.res == PlayResponse || c.res == PauseResponse) && Matches(c, r)
    ensures Kept(Step(c, Incoming(r, licensed, sent)))
  {
    PlayOrPauseStep(c, r, licensed, sent);
    var d := NextSession(Cleared(c, r.code));
    SameNumbers(c, d);
    SameNumbers(c, Idle(d, PLAYING));
    SameNumbers(c, Idle(d, READY));
    if d.cursor.sess != -1 { SentKept(d, c.res, true); }
  }

  lemma CommandedKept(c: Client, res: Awaited, sent: bool)
    requires Kept(c) && c.queue != [] && InSession(res)
    ensures Kept(Commanded(c, res, sent))
  {
    SameNumbers(c, AtFirst(c));
    SentKept(AtFirst(c), res, sent);
    SameNumbers(Sent(AtFirst(c), res, true, sent), Commanded(c, res, sent));
  }

  lemma CommandKept(c: Client, e: Event, log: seq<Accepted>)
    requires Good(c, log) && Kept(c) && IsCommand(e) && !c.busy
    ensures Kept(Step(c, e))
  {
    match e
    case Open(connected, sent) =>
    case Play(licensed, sent) =>
      SameNumbers(c, AtFirst(c));
      if c.status != INIT { CommandedKept(c, PlayResponse, sent); }
    case Pause(sent) => if c.status == PLAYING { CommandedKept(c, PauseResponse, sent); }
    case Close(sent) => if c.status != INIT { CommandedKept(c, CloseResponse, sent); }
  }

  lemma StepKept(c: Client, e: Event, log: seq<Accepted>)
    requires Good(c, log) && Kept(c) && (IsCommand(e) ==> !c.busy)
    ensures Kept(Step(c, e))
  {
    if IsCommand(e) {
      CommandKept(c, e, log);
    } else if e.Incoming? && Matches(c, e.reply) {
      match c.res
      case GetResponse => DescribedKept(c, e.reply, e.licensed, e.sent, log);
      case SetupResponse => SetUpKept(c, e.reply, e.licensed, e.sent, log);
      case PlayResponse => PlayOrPauseKept(c, e.reply, e.licensed, e.sent, log);
      case PauseResponse => PlayOrPauseKept(c, e.reply, e.licensed, e.sent, log);
      case _ => 
    } else {
      ReinitKept(c);
    }
  }

  // Over every run in which commands wait: at most one reply is awaited, that to the latest
  // request, and the requests of each session are numbered without gap or repetition.
  lemma {:induction false} RunKept(c: Client, log: seq<Accepted>, events: seq<Event>)
    requires Good(c, log) && Kept(c) && Disciplined(c, events)
    ensures Kept(Run(c, log, events).0)
    decreases |events|
  {
    if events != [] {
      StepGood(c, events[0], log);
      StepKept(c, events[0], log);
      RunKept(Step(c, events[0]), Logged(c, events[0], log), events[1..]);
    }
  }

  lemma FromStart(events: seq<Event>)
    requires Disciplined(START, events)
    ensures Good(Run(START, [], events).0, Run(START, [], events).1) && Kept(Run(START, [], events).0)
  {
    StartGood();
    RunGood(START, [], events);
    RunKept(START, [], events);
  }

  // ---- replies ----

  // A reply that does not answer the latest request, or comes unasked, resets the client.
  lemma OtherReplyResets(c: Client, r: Reply, licensed: bool, sent: bool, log: seq<Accepted>)
    requires Good(c, log) && Asked(c) && (c.res == Nothing || !Answers(r, Latest(c)))
    ensures var d := Step(c, Incoming(r, licensed, sent));
            d.status == INIT && d.queue == [] && d.res == Nothing && !d.busy && d.requests == []
  {
    AcceptedIff(c, r);
  }

  // A reset leaves the client as rtsp_init does, but for the cursor and the code rtsp_wait
  // reports: RTSP_Reinitialized after success or no reply, the last code otherwise.
  lemma ResetIsStart(c: Client)
    ensures Reinit(c).(responseId := 0, cursor := START.cursor) == START && Reinit(c).cursor == c.cursor
    ensures Reinit(c).responseId == if c.responseId in {0, 200} then -1 else c.responseId
  {
  }

  // The cursor goes through the media of each session, session after session, and then is NULL.
  lemma CursorAdvances(c: Client)
    requires Ready(c) && CursorInside(c)
    ensures var s, m := c.cursor.sess, c.cursor.med;
            var inSession, last := m + 1 < c.queue[s].media, s + 1 == |c.queue|;
            && NextMedium(c).cursor == (if inSession then Cursor(s, m + 1) else NextSession(c).cursor)
            && NextSession(c).cursor == (if last then START.cursor else Cursor(s + 1, 0))
            && (inSession ==> CursorInside(NextMedium(c))) && (!last ==> CursorInside(NextSession(c)))
  {
  }

  // A refusal resets the client, and its code is what rtsp_wait reports.
  lemma RefusalReported(c: Client, r: Reply, licensed: bool, sent: bool, log: seq<Accepted>)
    requires Good(c, log) && Asked(c) && c.res != Nothing && Answers(r, Latest(c)) && Legal(c.status, c.res)
    requires !(200 <= r.code < 300) && r.code != 0
    ensures var d := Step(c, Incoming(r, licensed, sent));
            d.status == INIT && d.queue == [] && d.res == Nothing && !d.busy && d.responseId == r.code
  {
    AcceptedIff(c, r);
  }

  predicate NamedBy(c: Client, e: Event, k: int) {
    c.res == SetupResponse && k == c.cursor.sess && e.Incoming? && e.reply.Reply? && e.reply.session.Id?
  }

  // d has the Session_IDs of c, but for the one the reply names.
  ghost predicate Renamed(c: Client, e: Event, d: Client) {
    && |d.queue| == |c.queue|
    && forall k :: 0 <= k < |d.queue| ==>
         d.queue[k].id == if NamedBy(c, e, k) then e.reply.session.id else c.queue[k].id
  }

  lemma SetUpRenames(c: Client, e: Event, log: seq<Accepted>)
    requires Good(c, log) && e.Incoming? && Matches(c, e.reply) && c.res == SetupResponse
    ensures var d := Step(c, e); d.queue == [] || Renamed(c, e, d)
  {
    SetUpStep(c, e.reply, e.licensed, e.sent);
  }

  lemma ReplyRenames(c: Client, e: Event, log: seq<Accepted>)
    requires Good(c, log) && e.Incoming? && Matches(c, e.reply) && c.res != GetResponse && c.queue != []
    ensures var d := Step(c, e); d.queue == [] || Renamed(c, e, d)
  {
    match c.res
    case SetupResponse => SetUpRenames(c, e, log);
    case PlayResponse => PlayOrPauseStep(c, e.reply, e.licensed, e.sent);
    case PauseResponse => PlayOrPauseStep(c, e.reply, e.licensed, e.sent);
    case _ =>
  }

  lemma CommandRenamesNone(c: Client, e: Event, log: seq<Accepted>)
    requires Good(c, log) && IsCommand(e) && !c.busy
    ensures Renamed(c, e, Step(c, e))
  {
  }

  // The Session_ID of a session is the last one the server named in a reply to its SETUPs.
  lemma SessionsNamed(c: Client, e: Event, log: seq<Accepted>)
    requires Good(c, log) && (IsCommand(e) ==> !c.busy) && Step(c, e).queue != []
    ensures var d := Step(c, e);
            if c.queue == [] then forall k :: 0 <= k < |d.queue| ==> d.queue[k].id == "" else Renamed(c, e, d)
  {
    if IsCommand(e) {
      CommandRenamesNone(c, e, log);
    } else if c.queue != [] && e.Incoming? && Matches(c, e.reply) {
      ReplyRenames(c, e, log);
    }
  }

  // Whatever it answers, the latest request of a session goes out under its Session_ID.
  lemma RequestCarriesId(c: Client, log: seq<Accepted>)
    requires Good(c, log) && Asked(c) && InSession(c.res)
    ensures CursorInside(c) && Latest(c).session == c.queue[c.cursor.sess].id
  {
  }

  // Two requests of one session never carry the same CSeq: the later one's is larger.
  lemma {:induction false} CountGrows(qs: seq<Request>, j: nat, k: nat, s: int)
    requires j < k < |qs| && qs[k].sess == s
    ensures CountFor(qs[..j + 1], s) < CountFor(qs[..k + 1], s)
    decreases k
  {
    assert qs[..k + 1][..k] == qs[..k];
    if j + 1 < k { CountNoLess(qs, j, k - 1, s); }
  }

  lemma {:induction false} CountNoLess(qs: seq<Request>, j: nat, k: nat, s: int)
    requires j <= k < |qs|
    ensures CountFor(qs[..j + 1], s) <= CountFor(qs[..k + 1], s)
    decreases k - j
  {
    if j < k {
      CountNoLess(qs, j, k - 1, s);
      assert qs[..k + 1][..k] == qs[..k];
    }
  }

  lemma NumbersRise(c: Client, j: nat, k: nat)
    requires Numbered(c) && j < k < |c.requests| && c.requests[j].sess == c.requests[k].sess >= 0
    ensures c.requests[j].cseq < c.requests[k].cseq
  {
    assert NumberRight(c.requests, j) && NumberRight(c.requests, k);
    CountGrows(c.requests, j, k, c.requests[k].sess);
  }

  // Between sessions the numbers repeat: the first request of each carries 2.
  lemma EachSessionStartsAtTwo(c: Client, k: nat)
    requires Numbered(c) && k < |c.requests| && c.requests[k].sess >= 0
    requires forall j :: 0 <= j < k ==> c.requests[j].sess != c.requests[k].sess
    ensures c.requests[k].cseq == 2
  {
    var qs, s := c.requests, c.requests[k].sess;
    assert NumberRight(qs, k) && qs[..k + 1][..k] == qs[..k];
    NoneOf(qs[..k], s);
  }

  lemma {:induction false} NoneOf(qs: seq<Request>, s: int)
    requires forall j :: 0 <= j < |qs| ==> qs[j].sess != s
    ensures CountFor(qs, s) == 0
  {
    if qs != [] { NoneOf(qs[..|qs| - 1], s); }
  }
}
