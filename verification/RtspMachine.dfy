// The RTSP client as a step system (src/rtsp): user commands, replies of the server, and the
// death of the connection, each one atomic step on the controller's state.
module RtspMachine {
  import opened Words

  datatype Status = INIT | READY | PLAYING | RECORDING

  // wait_for.res: the reply the client is waiting for.
  datatype Awaited = Nothing | GetResponse | SetupResponse | PlayResponse | PauseResponse | CloseResponse

  // One RTSP session of the queue: number of media, last CSeq sent, Session_ID.
  datatype Session = Session(media: nat, cseq: int, id: string)

  // The cursor of get_curr_sess: session and medium, -1 for NULL.
  datatype Cursor = Cursor(sess: int, med: int)

  // A request as it was put together: what it asks for, the session it goes to (-1 for
  // DESCRIBE), the CSeq and Session printed in it (no Session if empty), and whether it could be
  // written to the connection.
  datatype Request = Request(kind: Awaited, sess: int, cseq: int, session: string, written: bool)

  // `requests` are those of the current connection.
  datatype Client = Client(
    status: Status, busy: bool, res: Awaited, cseq: int, sessionId: string,
    queue: seq<Session>, cursor: Cursor, responseId: int,
    nextChannel: uint16, interleaved: seq<(byte, byte)>, requests: seq<Request>)

  datatype SessionField = Absent | Unusable | Id(id: string)

  // A message from the server. Malformed: not RTSP/1.0, or no header line with a CSeq.
  // `described` lists the media per session of a description, empty if it cannot be used.
  datatype Reply = Malformed | Reply(cseq: int, session: SessionField, code: nat, described: seq<nat>)

  // `sent`: whether the request the step may send is written to the socket.
  datatype Event =
    | Open(connected: bool, sent: bool)
    | Play(licensed: bool, sent: bool)
    | Pause(sent: bool)          // rtsp_pause and rtsp_stop
    | Close(sent: bool)
    | Incoming(reply: Reply, licensed: bool, sent: bool)
    | ServerDied

  const START := Client(INIT, false, Nothing, 0, "", [], Cursor(-1, -1), 0, 0, [], [])

  predicate Success(code: nat) { 200 <= code < 300 }

  // ---- get_curr_sess ----

  function AtFirst(c: Client): Client { c.(cursor := Cursor(0, 0)) }

  function NextSession(c: Client): Client {
    var s := if 0 <= c.cursor.sess < |c.queue| - 1 then c.cursor.sess + 1 else -1;
    c.(cursor := Cursor(s, if s == -1 then -1 else 0))
  }

  function NextMedium(c: Client): Client
    requires 0 <= c.cursor.sess < |c.queue|
  {
    if 0 <= c.cursor.med < c.queue[c.cursor.sess].media - 1 then c.(cursor := c.cursor.(med := c.cursor.med + 1))
    else NextSession(c)
  }

  predicate CursorInside(c: Client) {
    0 <= c.cursor.sess < |c.queue| && 0 <= c.cursor.med < c.queue[c.cursor.sess].media
  }

  // ---- send_*_request ----

  // Number the request in the current session's sequence and wait for `res`. If the write
  // fails only the request's number stays used.
  function Sent(c: Client, res: Awaited, withSession: bool, sent: bool): Client
    requires 0 <= c.cursor.sess < |c.queue|
  {
    var s := c.queue[c.cursor.sess];
    c.(queue := c.queue[c.cursor.sess := s.(cseq := s.cseq + 1)],
       res := if sent then res else Nothing, cseq := s.cseq + 1,
       sessionId := if withSession then s.id else c.sessionId,
       requests := c.requests + [Request(res, c.cursor.sess, s.cseq + 1, s.id, sent)])
  }

  function WithChannels(c: Client): Client {
    var ch := c.nextChannel;
    c.(nextChannel := Wrap16(ch + 2), interleaved := [(ch % 0x100, Wrap16(ch + 1) % 0x100)] + c.interleaved)
  }

  // ---- rtsp_reinit ----

  function Reinit(c: Client): Client {
    c.(status := INIT, busy := false, res := Nothing, cseq := 0, sessionId := "", queue := [],
       responseId := if c.responseId == 200 || c.responseId == 0 then -1 else c.responseId,
       nextChannel := 0, interleaved := [], requests := [])
  }

  // ---- replies ----

  // check_response: the reply matches what is awaited.
  predicate Matches(c: Client, r: Reply) {
    match c.res
    case Nothing => false
    case GetResponse => r.Reply? && r.cseq == 1
    case SetupResponse => r.Reply? && r.cseq == c.cseq
    case _ => r.Reply? && r.cseq == c.cseq && (r.session == Absent || r.session == Id(c.sessionId))
  }

  // check_status and cleanup of a matching successful reply.
  function Cleared(c: Client, code: nat): Client {
    c.(responseId := code, res := Nothing, cseq := 0, sessionId := "")
  }

  function Opened(described: seq<nat>): seq<Session> {
    seq(|described|, k requires 0 <= k < |described| => Session(described[k], 1, ""))
  }

  function Idle(c: Client, status: Status): Client {
    c.(status := status, busy := false, cursor := Cursor(-1, -1))
  }

  // set_rtsp_sessions succeeds only with at least one medium, and every session has one.
  predicate Usable(described: seq<nat>) {
    described != [] && forall k :: 0 <= k < |described| ==> described[k] > 0
  }

  // The state handlers: what becomes of the client, and whether rtsp_reinit follows.
  function Handled(c: Client, r: Reply, licensed: bool, sent: bool): (h: (Client, bool))
    requires Matches(c, r) && Ready(c)
  {
    if c.status == RECORDING then (c, true)
    else if !Legal(c.status, c.res) then (c, false)
    else if !Success(r.code) then (c.(responseId := r.code), false)
    else
      match c.res
      case GetResponse =>
        if !Usable(r.described) then (c.(responseId := r.code), false)
        else
          var d := AtFirst(Cleared(c, r.code).(queue := Opened(r.described)));
          (Sent(WithChannels(d), SetupResponse, false, sent), sent)
      case SetupResponse =>
        var named := match r.session case Id(s) => c.queue[c.cursor.sess].(id := s) case _ => c.queue[c.cursor.sess];
        var d := NextMedium(Cleared(c, r.code).(queue := c.queue[c.cursor.sess := named]));
        if d.cursor.sess == -1 then (Idle(d, READY), true)
        else (Sent(WithChannels(d), SetupResponse, false, sent), sent)
      case PlayResponse =>
        var d := NextSession(Cleared(c, r.code));
        if d.cursor.sess == -1 then (Idle(d, PLAYING), true)
        else if !licensed then (d, false)
        else (Sent(d, PlayResponse, true, sent), sent)
      case PauseResponse =>
        var d := NextSession(Cleared(c, r.code));
        if d.cursor.sess == -1 then (Idle(d, READY), true)
        else (Sent(d, PauseResponse, true, sent), sent)
      case _ =>
        (Idle(Reinit(Cleared(c, r.code)), INIT).(responseId := r.code), true)
  }

  // The replies each state's handler knows.
  predicate Legal(status: Status, res: Awaited) {
    match status
    case INIT => res == GetResponse || res == SetupResponse
    case READY => res == PlayResponse || res == CloseResponse
    case PLAYING => res == PauseResponse || res == CloseResponse
    case RECORDING => false
  }

  // Commands and replies find the sessions they refer to.
  predicate Ready(c: Client) {
    && (c.status == READY || c.status == PLAYING ==> c.queue != [])
    && (c.res == SetupResponse || c.res == PlayResponse || c.res == PauseResponse || c.res == CloseResponse ==>
          CursorInside(c))
    && (forall k :: 0 <= k < |c.queue| ==> c.queue[k].media > 0)
  }

  function Commanded(c: Client, res: Awaited, sent: bool): Client
    requires c.queue != []
  {
    var d := Sent(AtFirst(c), res, true, sent);
    d.(busy := sent)
  }

  function Step(c: Client, e: Event): Client
    requires Ready(c)
  {
    match e
    case Open(connected, sent) =>
      if c.status != INIT || !connected then c.(busy := false)
      else c.(res := if sent then GetResponse else Nothing, busy := sent,
              requests := [Request(GetResponse, -1, 1, "", sent)])
    case Play(licensed, sent) =>
      if c.status == INIT || c.status == RECORDING then c.(busy := false)
      else if !licensed then AtFirst(c).(busy := false)
      else Commanded(c, PlayResponse, sent)
    case Pause(sent) =>
      if c.status == INIT || c.status == READY then c.(busy := false)
      else if c.queue == [] then c else Commanded(c, PauseResponse, sent)
    case Close(sent) =>
      if c.status == INIT then c.(busy := false)
      else if c.queue == [] then c else Commanded(c, CloseResponse, sent)
    case Incoming(r, licensed, sent) =>
      if !Matches(c, r) then Reinit(c)
      else
        var (d, ok) := Handled(c, r, licensed, sent);
        if ok then d else Reinit(d)
    case ServerDied => Reinit(c)
  }
}
