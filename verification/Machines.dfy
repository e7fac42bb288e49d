// The decisions of the two state machines, as functions of what a read delivered. The classes
// Session and PSCProxyClient are proved against these, and the composed system is built on them.

module SessionMachine {
  import opened Bytes
  import opened Protocol

  datatype State = Init | Authorized | Closed

  // What never changes while a server runs: its credentials and the ATR of its reader.
  datatype Config = Config(user: Data, pass: Data, atr: Data) {
    predicate Valid() {
      NulFree(user) && NulFree(pass) && |atr| <= MAX_PAYLOAD
    }
  }

  datatype Verdict = Accept | Refuse | SendAtr | RunCommand(cmd: Data) | Drop

  // checkAuth and handleClientRequests, once a packet has been read.
  function Dispatch(st: State, p: Data, user: Data, pass: Data): (v: Verdict)
    requires st != Closed
    ensures v == Accept <==> st == Init && ParseAuth(p, user, pass)
    ensures v.RunCommand? <==> st == Authorized && Sane(p, CmdRequest)
    ensures v == SendAtr <==> st == Authorized && Sane(p, ResetRequest)
  {
    match st
    case Init => if ParseAuth(p, user, pass) then Accept else Refuse
    case Authorized =>
      if ParseResetRequest(p) then SendAtr
      else match ParseCmdRequest(p)
      case Some(cmd) => RunCommand(cmd)
      case None => Drop
  }

  function After(st: State, v: Verdict): State {
    match v
    case Accept => Authorized
    case Refuse => Closed
    case SendAtr => st
    case RunCommand(_) => st
    case Drop => Closed
  }
}

module ClientMachine {
  import opened Bytes
  import opened Protocol
  import opened Framing

  datatype State = Init | AuthRequested | Authorized | AwaitingAtr | Idle | Closed

  // checkAuthReply: the return code of the read is ignored.
  function AfterAuthReply(r: ReadResult): State {
    if ParseAuthReply(r.Left([])) then Authorized else Closed
  }

  // cacheATR: the one place that looks at the return code.
  function AtrToCache(r: ReadResult): Option<Data> {
    if r.Got? then ParseResetReply(r.packet) else None
  }

  // The reset branch of handleEmulatorRequests: what is written to the emulator, or None when the
  // client closes. The read goes into the packet object that still holds the request.
  function ResetAnswer(r: ReadResult): Option<Data> {
    ParseResetReply(r.Left(PrepareResetRequest()))
  }

  // The data branch. A lone zero byte is sent as a reset request ...
  function RequestFor(cmd: Data): Data {
    if cmd == [0] then PrepareResetRequest() else PrepareCmdRequest(cmd)
  }

  // ... but its answer is still parsed as a command reply, behind the command itself.
  function CommandAnswer(cmd: Data, r: ReadResult): Option<Data> {
    ParseCmdReply(r.Left(RequestFor(cmd)), cmd)
  }

  // Although three of the four reads have their return code ignored, no failed read is ever taken
  // for a reply.
  lemma FailedReadCloses(r: ReadResult, cmd: Data)
    requires r.Valid() && !r.Got? && |cmd| <= MAX_PAYLOAD
    ensures AfterAuthReply(r) == Closed
    ensures AtrToCache(r) == None
    ensures ResetAnswer(r) == None
    ensures CommandAnswer(cmd, r) == None
  {
    FrameSaneIff(ResetRequest, []);
    FrameSaneIff(CmdRequest, cmd);
    FailedReadIsNoPacket(r, [], AuthReply);
    FailedReadIsNoPacket(r, PrepareResetRequest(), ResetReply);
    assert exists u :: u != CmdReply && Sane(RequestFor(cmd), u) by {
      assert Sane(RequestFor(cmd), if cmd == [0] then ResetRequest else CmdRequest);
    }
    FailedReadIsNoPacket(r, RequestFor(cmd), CmdReply);
  }

  // The answer to a lone zero byte never parses, so that command always closes the client.
  lemma LoneZeroByteCloses(atr: Data)
    requires |atr| <= MAX_PAYLOAD
    ensures CommandAnswer([0], Got(PrepareResetReply(atr))) == None
  {
    FrameRoundTrip(ResetReply, atr);
    assert Payload(PrepareResetReply(atr), CmdReply) == None;
  }
}

// The one account, which client and server have built in.
module Account {
  import opened Bytes
  import opened Protocol

  const USER: Data := [80, 114, 101, 122, 117]
  const PASS: Data := USER + [80, 97, 115, 115]

  // Spelt out; and the client that is built with it is let in by the server that is.
  lemma BuiltIn()
    ensures |USER| == 5 && forall k | 0 <= k < 5 :: USER[k] == "Prezu"[k] as int
    ensures |PASS| == 9 && forall k | 0 <= k < 9 :: PASS[k] == "PrezuPass"[k] as int
    ensures NulFree(USER) && NulFree(PASS) && ParseAuth(PrepareAuth(USER, PASS), USER, PASS)
  {
    hide GetSize, Frame, CStr;
    AuthRoundTrip(USER, PASS, USER, PASS);
    CStrOfNulFree(USER);
    CStrOfNulFree(PASS);
  }
}
