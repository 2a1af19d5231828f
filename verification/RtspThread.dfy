// The controller object of src/rtsp: its methods update the fields of rtsp_thread in place
// and together perform exactly the steps of RtspMachine.
module RtspThread {
  import opened Words
  import opened RtspMachine

  class RtspThread {
    var status: Status
    var busy: bool
    var waitRes: Awaited
    var waitCseq: int
    var waitSession: string
    var rtspQueue: seq<Session>
    var staticSess: int               // the static variables of get_curr_sess, -1 for NULL
    var staticMed: int
    var responseId: int
    var nextIlvdCh: uint16
    var interleaved: seq<(byte, byte)>
    var requests: seq<Request>        // put together for the current connection

    ghost function State(): Client
      reads this
    {
      Client(status, busy, waitRes, waitCseq, waitSession, rtspQueue, Cursor(staticSess, staticMed), responseId,
             nextIlvdCh, interleaved, requests)
    }

    // rtsp_init
    constructor ()
      ensures State() == START
    {
      status, busy, waitRes, waitCseq, waitSession := INIT, false, Nothing, 0, "";
      rtspQueue, staticSess, staticMed, responseId := [], -1, -1, 0;
      nextIlvdCh, interleaved, requests := 0, [], [];
    }

    // ---- get_curr_sess ----

    // GCS_INIT
    method InitCursor()
      requires rtspQueue != []
      modifies this`staticSess, this`staticMed
      ensures State() == AtFirst(old(State()))
    {
      staticSess := 0;
      staticMed := 0;
    }

    // GCS_UNINIT
    method Uninit()
      modifies this`staticSess, this`staticMed
      ensures staticSess == staticMed == -1
    {
      staticSess := -1;
      staticMed := -1;
    }

    // GCS_NXT_SESS; false for NULL
    method NxtSess() returns (more: bool)
      requires 0 <= staticSess < |rtspQueue|
      modifies this`staticSess, this`staticMed
      ensures State() == NextSession(old(State())) && more == (staticSess != -1)
    {
      staticSess := if staticSess + 1 < |rtspQueue| then staticSess + 1 else -1;
      staticMed := if staticSess != -1 then 0 else -1;
      more := staticSess != -1;
    }

    // GCS_NXT_MED; false for NULL
    method NxtMed() returns (more: bool)
      requires CursorInside(State())
      modifies this`staticSess, this`staticMed
      ensures State() == NextMedium(old(State())) && more == (staticSess != -1)
    {
      staticMed := if staticMed + 1 < rtspQueue[staticSess].media then staticMed + 1 else -1;
      if staticMed == -1 {
        staticSess := if staticSess + 1 < |rtspQueue| then staticSess + 1 else -1;
        if staticSess != -1 { staticMed := 0; }
      }
      more := staticMed != -1;
    }

    // ---- send_*_request; true on error ----

    method SendGet(sent: bool) returns (err: bool)
      modifies this`waitRes, this`requests
      ensures State() == old(State()).(res := if sent then GetResponse else Nothing,
                                       requests := [Request(GetResponse, -1, 1, "", sent)])
      ensures err == !sent
    {
      requests := [Request(GetResponse, -1, 1, "", sent)];
      waitRes := GetResponse;
      if !sent { waitRes := Nothing; }
      err := !sent;
    }

    // The interleaved channel pair of the next medium
    method AllocateChannels()
      modifies this`nextIlvdCh, this`interleaved
      ensures State() == WithChannels(old(State()))
    {
      var rtpCh: byte := nextIlvdCh % 0x100;
      nextIlvdCh := Wrap16(nextIlvdCh + 1);
      var rtcpCh: byte := nextIlvdCh % 0x100;
      nextIlvdCh := Wrap16(nextIlvdCh + 1);
      OneByOne(old(nextIlvdCh));
      interleaved := [(rtpCh, rtcpCh)] + interleaved;
    }

    method SendSetup(sent: bool) returns (err: bool)
      requires 0 <= staticSess < |rtspQueue|
      modifies this
      ensures State() == Sent(WithChannels(old(State())), SetupResponse, false, sent) && err == !sent
    {
      AllocateChannels();
      var s := rtspQueue[staticSess];
      rtspQueue := rtspQueue[staticSess := s.(cseq := s.cseq + 1)];
      requests := requests + [Request(SetupResponse, staticSess, rtspQueue[staticSess].cseq, s.id, sent)];
      waitRes := SetupResponse;
      waitCseq := rtspQueue[staticSess].cseq;
      if !sent { waitRes := Nothing; }
      err := !sent;
    }

    // send_play_request, send_pause_request and send_teardown_request differ in `res`.
    method SendSessionRequest(res: Awaited, sent: bool) returns (err: bool)
      requires 0 <= staticSess < |rtspQueue|
      modifies this`rtspQueue, this`waitRes, this`waitCseq, this`waitSession, this`requests
      ensures State() == Sent(old(State()), res, true, sent) && err == !sent
    {
      var s := rtspQueue[staticSess];
      rtspQueue := rtspQueue[staticSess := s.(cseq := s.cseq + 1)];
      requests := requests + [Request(res, staticSess, rtspQueue[staticSess].cseq, s.id, sent)];
      waitRes := res;
      waitCseq := rtspQueue[staticSess].cseq;
      waitSession := rtspQueue[staticSess].id;
      if !sent { waitRes := Nothing; }
      err := !sent;
    }

    // ---- rtsp_reinit ----

    method ReinitAll()
      modifies this
      ensures State() == Reinit(old(State()))
    {
      rtspQueue := [];
      status := INIT;
      waitRes, waitCseq, waitSession := Nothing, 0, "";
      busy := false;
      if responseId == 200 || responseId == 0 { responseId := -1; }
      interleaved := [];
      nextIlvdCh := 0;
      requests := [];
    }

    // ---- replies ----

    // check_response; Nothing stands for an opcode of 0 or less.
    method CheckResponse(r: Reply) returns (opcode: Awaited)
      ensures opcode == if Matches(State(), r) then waitRes else Nothing
    {
      opcode := Nothing;
      if r == Malformed { return; }
      match waitRes {
        case GetResponse =>
          if r.cseq == 1 { opcode := GetResponse; }
        case SetupResponse =>
          if r.cseq == waitCseq { opcode := SetupResponse; }
        case _ =>
          if r.session.Unusable? || (r.session.Id? && r.session.id != waitSession) { return; }
          if r.cseq == waitCseq { opcode := waitRes; }
      }
    }

    // The part every handle_*_response shares: check_status, then cleanup. True on error.
    method HandleStatus(code: nat) returns (err: bool)
      modifies this`responseId, this`waitRes, this`waitCseq, this`waitSession
      ensures err == !Success(code)
      ensures State() == if err then old(State()).(responseId := code) else Cleared(old(State()), code)
    {
      responseId := code;
      if !(200 <= code < 300) { return true; }
      waitRes, waitCseq, waitSession := Nothing, 0, "";
      err := false;
    }

    method InitState(r: Reply, sent: bool) returns (err: bool)
      requires status == INIT && Ready(State()) && Matches(State(), r)
      modifies this
      ensures (State(), !err) == Handled(old(State()), r, true, sent)
    {
      if waitRes == GetResponse {
        err := GetAnswered(r, sent);
      } else if waitRes == SetupResponse {
        err := SetupAnswered(r, sent);
      } else {
        err := true;
      }
    }

    // init_state on the reply to DESCRIBE
    method GetAnswered(r: Reply, sent: bool) returns (err: bool)
      requires status == INIT && waitRes == GetResponse && Ready(State()) && Matches(State(), r)
      modifies this
      ensures (State(), !err) == Handled(old(State()), r, true, sent)
    {
      if !Success(r.code) || !Usable(r.described) {
        responseId := r.code;
        return true;
      }
      err := HandleStatus(r.code);
      rtspQueue := Opened(r.described);
      InitCursor();
      err := SendSetup(sent);
    }

    // init_state on the reply to SETUP
    method SetupAnswered(r: Reply, sent: bool) returns (err: bool)
      requires status == INIT && waitRes == SetupResponse && Ready(State()) && Matches(State(), r)
      modifies this
      ensures (State(), !err) == Handled(old(State()), r, true, sent)
    {
      err := HandleStatus(r.code);
      if err { return; }
      if r.session.Id? {
        rtspQueue := rtspQueue[staticSess := rtspQueue[staticSess].(id := r.session.id)];
      }
      assert r.session.Id? || rtspQueue[staticSess := rtspQueue[staticSess]] == rtspQueue;
      var more := NxtMed();
      if more {
        err := SendSetup(sent);
      } else {
        status := READY;
        Uninit();
        busy := false;
      }
    }

    // rtsp_reinit after a TEARDOWN keeps the reply's code.
    method Closed()
      modifies this
      ensures State() == Idle(Reinit(old(State())), INIT).(responseId := old(responseId))
    {
      status := INIT;
      var last := responseId;
      ReinitAll();
      responseId := last;
      Uninit();
      busy := false;
    }

    method ReadyState(r: Reply, licensed: bool, sent: bool) returns (err: bool)
      requires status == READY && Ready(State()) && Matches(State(), r)
      modifies this
      ensures (State(), !err) == Handled(old(State()), r, licensed, sent)
    {
      if waitRes == PlayResponse {
        err := HandleStatus(r.code);
        if err { return; }
        var more := NxtSess();
        if !more {
          status := PLAYING;
          Uninit();
          busy := false;
        } else if !licensed {
          err := true;
        } else {
          err := SendSessionRequest(PlayResponse, sent);
        }
      } else if waitRes == CloseResponse {
        err := HandleStatus(r.code);
        if !err { Closed(); }
      } else {
        err := true;
      }
    }

    method PlayingState(r: Reply, sent: bool) returns (err: bool)
      requires status == PLAYING && Ready(State()) && Matches(State(), r)
      modifies this
      ensures (State(), !err) == Handled(old(State()), r, true, sent)
    {
      if waitRes == PauseResponse {
        err := HandleStatus(r.code);
        if err { return; }
        var more := NxtSess();
        if !more {
          status := READY;
          Uninit();
          busy := false;
        } else {
          err := SendSessionRequest(PauseResponse, sent);
        }
      } else if waitRes == CloseResponse {
        err := HandleStatus(r.code);
        if !err { Closed(); }
      } else {
        err := true;
      }
    }

    // handle_rtsp_pkt on a text message, and the rtsp_reinit of the main loop if it fails.
    method HandlePkt(r: Reply, licensed: bool, sent: bool)
      requires Ready(State())
      modifies this
      ensures State() == Step(old(State()), Incoming(r, licensed, sent))
    {
      var err := true;
      var opcode := CheckResponse(r);
      if opcode != Nothing {
        match status {
          case INIT => err := InitState(r, sent);
          case READY => err := ReadyState(r, licensed, sent);
          case PLAYING => err := PlayingState(r, sent);
          case RECORDING => err := false;
        }
      }
      if err { ReinitAll(); }
    }

    // The connection is closed by the server.
    method ServerGone()
      modifies this
      ensures Ready(old(State())) ==> State() == Step(old(State()), ServerDied)
    {
      ReinitAll();
    }

    // ---- commands; true on error ----

    method RtspOpen(connected: bool, sent: bool) returns (err: bool)
      requires Ready(State())
      modifies this
      ensures State() == Step(old(State()), Open(connected, sent)) && err == !busy
    {
      busy := true;
      err := status != INIT || !connected;
      if !err { err := SendGet(sent); }
      if err { busy := false; }
    }

    method RtspPlay(licensed: bool, sent: bool) returns (err: bool)
      requires Ready(State())
      modifies this
      ensures State() == Step(old(State()), Play(licensed, sent)) && err == !busy
    {
      busy := true;
      err := status == INIT || status == RECORDING;
      if !err {
        InitCursor();
        if licensed {
          err := SendSessionRequest(PlayResponse, sent);
        } else {
          err := true;
        }
      }
      if err { busy := false; }
    }

    // rtsp_pause and rtsp_stop
    method RtspPause(sent: bool) returns (err: bool)
      requires Ready(State()) && status != RECORDING
      modifies this
      ensures State() == Step(old(State()), Pause(sent)) && err == !busy
    {
      busy := true;
      err := status == INIT || status == READY;
      if !err {
        InitCursor();
        err := SendSessionRequest(PauseResponse, sent);
      }
      if err { busy := false; }
    }

    method RtspClose(sent: bool) returns (err: bool)
      requires Ready(State()) && status != RECORDING
      modifies this
      ensures State() == Step(old(State()), Close(sent)) && err == !busy
    {
      busy := true;
      err := status == INIT;
      if !err {
        InitCursor();
        err := SendSessionRequest(CloseResponse, sent);
      }
      if err { busy := false; }
    }
  }

  lemma OneByOne(ch: uint16)
    ensures Wrap16(Wrap16(ch + 1) + 1) == Wrap16(ch + 2)
  {
  }
}
