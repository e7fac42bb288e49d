// What every reachable state of the composed system looks like, connection by connection: the
// queues, the partly read and the partly written bytes together hold at most one packet, and which
// one is determined by the two state machines.
module LockStep {
  import opened Bytes
  import opened Protocol
  import opened Framing
  import opened System
  import SM = SessionMachine
  import CM = ClientMachine

  // ---------- What moving bytes does not change ----------

  // All the bytes on their way to the server, whether still to be written, queued or already taken.
  function Up(l: Link, v: View): Data {
    (if v.Taking? then v.got else []) + l.up + (if l.pc.Writing? then l.pc.rest else [])
  }

  // All the bytes on their way to the client.
  function Down(l: Link, v: View): Data {
    (if l.pc.Reading? then l.pc.got else []) + l.down + (if v.Replying? then v.rest else [])
  }

  datatype Wire = Wire(up: Data, down: Data, card: Option<Data>)

  function WireOf(l: Link, v: View): Wire {
    Wire(Up(l, v), Down(l, v), if v.AtCard? then Some(v.cmd) else None)
  }

  // Where the client stands, bytes apart.
  function Settle(pc: ClientPc): ClientPc {
    match pc
    case Ready => Ready
    case Writing(_, Return) => Ready
    case Writing(_, Await(purpose)) => Reading([], purpose)
    case Reading(_, purpose) => Reading([], purpose)
  }

  function Skeleton(l: Link): Link {
    l.(pc := Settle(l.pc), up := [], down := [])
  }

  // ---------- The invariant ----------

  // The server has given up on this connection, or refused it.
  predicate Dead(l: Link) {
    l.session == Gone || l.session == On(SM.Closed)
  }

  predicate PreAuth(l: Link) {
    l.session == Waiting || l.session == On(SM.Init)
  }

  predicate Trusted(l: Link) {
    l.session == On(SM.Authorized) || Dead(l)
  }

  predicate Match(l: Link, c: Config) {
    l.user == c.user && l.pass == c.pass
  }

  // The one packet in transit is this request. A dead session may have lost some of it.
  predicate Sending(l: Link, w: Wire, request: Data) {
    w.down == [] && w.card == None && (Dead(l) || w.up == request)
  }

  // The one packet in transit is this reply.
  predicate Answered(l: Link, w: Wire, reply: Data) {
    w.down == reply && w.card == None && (Dead(l) || w.up == [])
  }

  // Every command sent has been executed and its answer handed to the emulator.
  predicate Settled(l: Link, mine: seq<Exchange>) {
    |l.asked| == |mine| == |Answers(l.out)|
  }

  // The request a client is waiting to have answered.
  datatype Ask = Nothing | ForEntry | ForTheAtr | ForResult(cmd: Data)

  function Outstanding(l: Link): Ask {
    match l.state
    case Init => Nothing
    case AuthRequested => ForEntry
    case Authorized => Nothing
    case AwaitingAtr => ForTheAtr
    case Idle =>
      (match Settle(l.pc)
       case Reading(_, purpose) =>
         if purpose.ForCommand? && purpose.cmd != [0] then ForResult(purpose.cmd) else ForTheAtr
       case _ => Nothing)
    case Closed => Nothing
  }

  // What a live client's outstanding request says about the rest of the connection.
  predicate Transit(l: Link, w: Wire, mine: seq<Exchange>, c: Config, ask: Ask) {
    match ask
    case Nothing => Settled(l, mine) && Answered(l, w, [])
    case ForEntry =>
      && Settled(l, mine) && l.asked == []
      && (|| (Sending(l, w, PrepareAuth(l.user, l.pass)) && (PreAuth(l) || Dead(l)))
          || (Answered(l, w, PrepareAuthReply(Match(l, c))) && (if Match(l, c) then Trusted(l) else Dead(l))))
    case ForTheAtr =>
      && Settled(l, mine) && Match(l, c) && Trusted(l)
      && (Sending(l, w, PrepareResetRequest()) || Answered(l, w, PrepareResetReply(c.atr)))
    case ForResult(cmd) =>
      && Match(l, c) && Trusted(l)
      && l.asked != [] && l.asked[|l.asked| - 1] == cmd
      && |l.asked| == |Answers(l.out)| + 1
      && (|| (|l.asked| == |mine| + 1 && Sending(l, w, PrepareCmdRequest(cmd)))
          || (|l.asked| == |mine| + 1 && w == Wire([], [], Some(cmd)))
          || (|l.asked| == |mine| && Answered(l, w, PrepareCmdReply(mine[|mine| - 1].reply))))
  }

  // A closed client never reads or writes again, but the server may still finish its last request.
  predicate Orphaned(l: Link, w: Wire, mine: seq<Exchange>, c: Config) {
    && |mine| <= |l.asked| <= |Answers(l.out)| + 1
    && (PreAuth(l) ==> |l.asked| == 0 && Sending(l, w, PrepareAuth(l.user, l.pass)))
    && (l.session == On(SM.Authorized) ==>
          Match(l, c) &&
          if |l.asked| == |mine| then
            w.card == None && (w.up == [] || Sending(l, w, PrepareResetRequest()))
          else
            || (Sending(l, w, PrepareCmdRequest(l.asked[|l.asked| - 1])))
            || (w == Wire([], [], Some(l.asked[|l.asked| - 1]))))
  }

  // What the client's own state says about itself.
  predicate Local(l: Link, c: Config) {
    match l.state
    case Init => l.pc == Ready && l.asked == [] && (PreAuth(l) || Dead(l))
    case AuthRequested => l.pc == Ready || l.pc == Reading([], ForAuth)
    case Authorized => l.pc == Ready && Match(l, c) && Trusted(l)
    case AwaitingAtr => l.pc == Ready || l.pc == Reading([], ForAtr)
    case Idle =>
      && Match(l, c) && Trusted(l) && l.cached == c.atr
      && (l.pc == Ready
          || (l.pc.Reading? && (l.pc.purpose == ForReset
                                || (l.pc.purpose.ForCommand? && |l.pc.purpose.cmd| <= MAX_PAYLOAD))))
    case Closed => l.pc == Ready
  }

  // The logs of one connection agree: commands reach the card in the order they were sent, and
  // what the emulator is handed for a command is that command followed by the card's answer.
  predicate Logs(asked: seq<Data>, answers: seq<Data>, mine: seq<Exchange>) {
    && |answers| <= |mine| <= |asked| <= |mine| + 1
    && (forall k | 0 <= k < |mine| :: mine[k].cmd == asked[k] && |mine[k].reply| <= MAX_PAYLOAD)
    && (forall k | 0 <= k < |answers| :: answers[k] == mine[k].cmd + mine[k].reply)
    && (forall k | 0 <= k < |asked| :: asked[k] != [0] && |asked[k]| <= MAX_PAYLOAD)
  }

  // Every ATR an emulator was handed is the reader's.
  predicate OneAtr(out: seq<EmuWrite>, atr: Data) {
    forall k | 0 <= k < |out| :: out[k].Atr? ==> out[k].data == atr
  }

  // Only a client with the server's credentials gets an authorised session, sends commands, or has
  // anything to hand to its emulator.
  predicate Gate(l: Link, c: Config) {
    l.session == On(SM.Authorized) || l.asked != [] || l.out != [] ==> Match(l, c)
  }

  // The invariant of a client's connection, bytes settled.
  predicate Fine(l: Link, w: Wire, mine: seq<Exchange>, c: Config) {
    && GoodCredentials(l.user, l.pass)
    && Gate(l, c)
    && (w.card.Some? ==> l.session == On(SM.Authorized))
    && Logs(l.asked, Answers(l.out), mine)
    && OneAtr(l.out, c.atr)
    && Local(l, c)
    && (if l.state == CM.Closed then Orphaned(l, w, mine, c) else Transit(l, w, mine, c, Outstanding(l)))
  }

  // What the server's thread is doing fits the session, whoever the peer is.
  predicate ViewFits(l: Link, v: View) {
    match v
    case Off => true
    case Taking(got) => l.session.On? && l.session.st != SM.Closed && |got| <= Need(got)
    case AtCard(_) => l.session == On(SM.Authorized)
    case Replying(_) => l.session.On?
  }

  predicate LinkInv(l: Link, v: View, mine: seq<Exchange>, c: Config) {
    !l.stranger && ViewFits(l, v) && Fine(Skeleton(l), WireOf(l, v), mine, c)
  }

  lemma NewLinkInv(user: Data, pass: Data, c: Config)
    requires GoodCredentials(user, pass)
    ensures LinkInv(NewLink(user, pass), Off, [], c)
  {
  }

  // A complete packet at the front of a transfer is the whole transfer.
  lemma Whole(got: Data, queue: Data, packet: Data)
    requires IsPacket(got) && got + queue == packet
    requires packet == [] || IsPacket(packet)
    ensures got == packet && queue == []
  {
    assert packet + [] == packet;
    PacketPrefix(got, queue, packet, []);
  }

  // The gate stays as it is while nothing it speaks of comes about.
  lemma SameGate(l: Link, m: Link, c: Config)
    requires Gate(l, c)
    requires m.user == l.user && m.pass == l.pass && m.asked == l.asked && m.out == l.out
    requires m.session == On(SM.Authorized) ==> l.session == On(SM.Authorized)
    ensures Gate(m, c)
  {
  }

  // ---------- The client begins a request ----------

  // A client that is about to send finds nothing in transit, unless the session is dead.
  lemma NothingInTransit(l: Link, w: Wire, mine: seq<Exchange>, c: Config)
    requires Fine(l, w, mine, c) && l.state != CM.Closed && Outstanding(l) == Nothing
    ensures l.pc == Ready && w.down == [] && w.card == None && Settled(l, mine)
    ensures Dead(l) || w.up == []
  {
    hide PrepareAuth, PrepareAuthReply, PrepareResetRequest, PrepareResetReply, PrepareCmdRequest, PrepareCmdReply;
    hide Answers, Logs, OneAtr, Gate;
  }

  // The bytes a step of the client begins to write.
  function Request(l: Link, a: ClientAct): Data {
    match a
    case Authorize => PrepareAuth(l.user, l.pass)
    case RequestAtr => PrepareResetRequest()
    case EmulatorReset => PrepareResetRequest()
    case EmulatorCommand(cmd) => CM.RequestFor(cmd)
    case _ => []
  }

  lemma Requests(l: Link, w: Wire, mine: seq<Exchange>, a: ClientAct, c: Config)
    requires Fine(l, w, mine, c) && ClientCan(l, a)
    requires a.Authorize? || a.RequestAtr? || a.EmulatorReset?
    ensures Fine(Skeleton(ClientDo(l, a)), w.(up := w.up + Request(l, a)), mine, c)
  {
    hide PrepareAuth, PrepareAuthReply, PrepareResetRequest, PrepareResetReply, PrepareCmdRequest, PrepareCmdReply;
    hide Answers, Logs, OneAtr, Gate;
    NothingInTransit(l, w, mine, c);
    var m, after := Skeleton(ClientDo(l, a)), w.(up := w.up + Request(l, a));
    SameGate(l, m, c);
    assert Dead(m) || after.up == Request(l, a);
    assert Sending(m, after, Request(l, a));
  }

  lemma Asks(l: Link, w: Wire, mine: seq<Exchange>, cmd: Data, c: Config)
    requires Fine(l, w, mine, c) && ClientCan(l, EmulatorCommand(cmd))
    ensures Fine(Skeleton(ClientDo(l, EmulatorCommand(cmd))), w.(up := w.up + CM.RequestFor(cmd)), mine, c)
  {
    hide PrepareAuth, PrepareAuthReply, PrepareResetRequest, PrepareResetReply, PrepareCmdRequest, PrepareCmdReply;
    hide Answers, OneAtr;
    NothingInTransit(l, w, mine, c);
    var m, after := Skeleton(ClientDo(l, EmulatorCommand(cmd))), w.(up := w.up + CM.RequestFor(cmd));
    assert Dead(m) || after.up == CM.RequestFor(cmd);
    assert Sending(m, after, CM.RequestFor(cmd));
  }

  lemma Looks(l: Link, w: Wire, mine: seq<Exchange>, c: Config)
    requires Fine(l, w, mine, c) && ClientCan(l, Look)
    ensures Fine(Skeleton(ClientDo(l, Look)), w, mine, c)
  {
    hide PrepareAuth, PrepareAuthReply, PrepareResetRequest, PrepareResetReply, PrepareCmdRequest, PrepareCmdReply;
    hide Answers, Logs, OneAtr, Gate;
    SameGate(l, Skeleton(ClientDo(l, Look)), c);
  }

  // ---------- The client's read ends ----------

  function Closing(l: Link): Link {
    l.(pc := Ready, state := CM.Closed)
  }

  lemma Closes(l: Link, w: Wire, mine: seq<Exchange>, c: Config, down: Data)
    requires Fine(l, w, mine, c) && l.pc.Reading? && (w.down == [] ==> down == [])
    ensures Fine(Closing(l), w.(down := down), mine, c)
  {
    hide PrepareAuth, PrepareAuthReply, PrepareResetRequest, PrepareResetReply, PrepareCmdRequest, PrepareCmdReply;
    hide Answers, Logs, OneAtr, Gate;
    SameGate(l, Closing(l), c);
  }

  // What a completed read delivers.
  predicate Reply(l: Link, mine: seq<Exchange>, c: Config, p: Data)
    requires l.pc.Reading?
  {
    match l.pc.purpose
    case ForAuth =>
      l.state == CM.AuthRequested && p == PrepareAuthReply(Match(l, c)) &&
      (if Match(l, c) then Trusted(l) else Dead(l))
    case ForAtr => l.state == CM.AwaitingAtr && p == PrepareResetReply(c.atr)
    case ForReset => l.state == CM.Idle && p == PrepareResetReply(c.atr)
    case ForCommand(cmd) =>
      l.state == CM.Idle &&
      if cmd == [0] then p == PrepareResetReply(c.atr)
      else 0 < |mine| == |l.asked| && p == PrepareCmdReply(mine[|mine| - 1].reply)
  }

  // What is on its way to a waiting client is the reply to its request.
  lemma ReplyOnItsWay(l: Link, w: Wire, mine: seq<Exchange>, c: Config)
    requires Fine(l, w, mine, c) && l.pc.Reading? && w.down != []
    ensures w.card == None && (Dead(l) || w.up == [])
    ensures Reply(l, mine, c, w.down)
  {
    hide PrepareAuth, PrepareAuthReply, PrepareResetRequest, PrepareResetReply, PrepareCmdRequest, PrepareCmdReply;
    hide Answers, Logs, OneAtr, Gate;
  }

  lemma ReplyIsPacket(l: Link, mine: seq<Exchange>, c: Config, p: Data)
    requires c.Valid() && l.pc.Reading? && Reply(l, mine, c, p)
    requires mine != [] ==> |mine[|mine| - 1].reply| <= MAX_PAYLOAD
    ensures IsPacket(p)
  {
    hide PrepareAuth, PrepareAuthReply, PrepareResetRequest, PrepareResetReply, PrepareCmdRequest, PrepareCmdReply;
    hide IsPacket;
    RepliesArePackets(Match(l, c), c.atr);
    if mine != [] {
      RepliesArePackets(true, mine[|mine| - 1].reply);
    }
  }

  lemma RepliesFit(l: Link, w: Wire, mine: seq<Exchange>, c: Config)
    requires Fine(l, w, mine, c)
    ensures mine != [] ==> |mine[|mine| - 1].reply| <= MAX_PAYLOAD
  {
  }

  // When a read completes, what it delivers is the reply the server sent, and nothing is left over.
  lemma ReadCompletes(l: Link, v: View, mine: seq<Exchange>, c: Config)
    requires l.pc.Reading?
    requires c.Valid() && LinkInv(l, v, mine, c) && ClientCan(l, Finish)
    ensures l.down == [] && Down(l, v) == l.pc.got
    ensures !v.AtCard? && (Dead(l) || Up(l, v) == [])
    ensures Reply(Skeleton(l), mine, c, l.pc.got)
  {
    hide Fine, Reply, GetSize, Need;
    var w := WireOf(l, v);
    var more := l.down + if v.Replying? then v.rest else [];
    assert w.down == l.pc.got + more;
    assert l.pc.got != [];
    ReplyOnItsWay(Skeleton(l), w, mine, c);
    RepliesFit(Skeleton(l), w, mine, c);
    ReplyIsPacket(Skeleton(l), mine, c, w.down);
    Whole(l.pc.got, more, w.down);
  }

  lemma AtrArrives(c: Config)
    requires c.Valid()
    ensures CM.AtrToCache(Got(PrepareResetReply(c.atr))) == Some(c.atr)
    ensures CM.ResetAnswer(Got(PrepareResetReply(c.atr))) == Some(c.atr)
  {
    FrameRoundTrip(ResetReply, c.atr);
    assert Payload(PrepareResetReply(c.atr), ResetReply) == Some(c.atr);
  }

  // What becomes of a client that is delivered a reply.
  function Delivered(l: Link, mine: seq<Exchange>, c: Config): Link
    requires l.pc.Reading? && (l.pc.purpose.ForCommand? && l.pc.purpose.cmd != [0] ==> mine != [])
  {
    match l.pc.purpose
    case ForAuth => if Match(l, c) then l.(pc := Ready, state := CM.Authorized) else Closing(l)
    case ForAtr => l.(pc := Ready, state := CM.Idle, cached := c.atr)
    case ForReset => l.(pc := Ready, out := l.out + [Atr(c.atr)])
    case ForCommand(cmd) =>
      if cmd == [0] then Closing(l)
      else l.(pc := Ready, out := l.out + [Answer(cmd + mine[|mine| - 1].reply)])
  }

  lemma Resumes(l: Link, mine: seq<Exchange>, c: Config, p: Data)
    requires c.Valid() && l.pc.Reading? && Reply(Skeleton(l), mine, c, p)
    requires mine != [] ==> |mine[|mine| - 1].reply| <= MAX_PAYLOAD
    ensures Resume(l, l.pc.purpose, Got(p)) == Delivered(l, mine, c)
  {
    hide PrepareAuth, PrepareAuthReply, PrepareResetRequest, PrepareResetReply, PrepareCmdRequest, PrepareCmdReply;
    hide GetSize, IsPacket, Payload, Sane;
    AtrArrives(c);
    match l.pc.purpose
    case ForAuth => AuthReplyRoundTrip(Match(l, c));
    case ForAtr =>
    case ForReset =>
    case ForCommand(cmd) =>
      if cmd == [0] {
        CM.LoneZeroByteCloses(c.atr);
      } else {
        CmdReplyAloneIff(mine[|mine| - 1].reply, cmd);
      }
  }

  // What becomes of the client when its read completes.
  lemma FinishOutcome(l: Link, v: View, mine: seq<Exchange>, c: Config)
    requires l.pc.Reading?
    requires c.Valid() && LinkInv(l, v, mine, c) && ClientCan(l, Finish)
    ensures l.pc.purpose.ForCommand? && l.pc.purpose.cmd != [0] ==> mine != []
    ensures ClientDo(l, Finish) == Delivered(l, mine, c)
  {
    hide Fine, Resume, Delivered, PrepareAuthReply, PrepareResetReply, PrepareCmdReply;
    ReadCompletes(l, v, mine, c);
    RepliesFit(Skeleton(l), WireOf(l, v), mine, c);
    Resumes(l, mine, c, l.pc.got);
  }

  lemma DeliversEntry(l: Link, w: Wire, mine: seq<Exchange>, c: Config)
    requires Fine(l, w, mine, c) && l.pc.Reading? && w.down != []
    requires (l.pc.purpose.ForAuth? && Match(l, c)) || l.pc.purpose.ForAtr?
    ensures Fine(Delivered(l, mine, c), w.(down := []), mine, c)
  {
    hide PrepareAuth, PrepareAuthReply, PrepareResetRequest, PrepareResetReply, PrepareCmdRequest, PrepareCmdReply;
    hide Answers, Logs, OneAtr, Gate;
    SameGate(l, Delivered(l, mine, c), c);
  }

  lemma DeliversAtr(l: Link, w: Wire, mine: seq<Exchange>, c: Config)
    requires Fine(l, w, mine, c) && l.pc.Reading? && w.down != [] && l.pc.purpose.ForReset?
    ensures Fine(Delivered(l, mine, c), w.(down := []), mine, c)
  {
    hide PrepareAuth, PrepareAuthReply, PrepareResetRequest, PrepareResetReply, PrepareCmdRequest, PrepareCmdReply;
    hide Answers, Logs;
    AnswersAppend(l.out, Atr(c.atr));
    assert Answers(l.out) + [] == Answers(l.out);
  }

  lemma DeliversAnswer(l: Link, w: Wire, mine: seq<Exchange>, c: Config)
    requires Fine(l, w, mine, c) && l.pc.Reading? && w.down != []
    requires l.pc.purpose.ForCommand? && l.pc.purpose.cmd != [0]
    ensures mine != []
    ensures Fine(Delivered(l, mine, c), w.(down := []), mine, c)
  {
    hide PrepareAuth, PrepareAuthReply, PrepareResetRequest, PrepareResetReply, PrepareCmdRequest, PrepareCmdReply;
    hide Answers;
    AnswersAppend(l.out, Answer(l.pc.purpose.cmd + mine[|mine| - 1].reply));
  }

  lemma Delivers(l: Link, w: Wire, mine: seq<Exchange>, c: Config)
    requires Fine(l, w, mine, c) && l.pc.Reading? && w.down != []
    ensures l.pc.purpose.ForCommand? && l.pc.purpose.cmd != [0] ==> mine != []
    ensures Fine(Delivered(l, mine, c), w.(down := []), mine, c)
  {
    hide Fine;
    match l.pc.purpose
    case ForAtr => DeliversEntry(l, w, mine, c);
    case ForReset => DeliversAtr(l, w, mine, c);
    case ForAuth =>
      if Match(l, c) {
        DeliversEntry(l, w, mine, c);
      } else {
        Closes(l, w, mine, c, []);
      }
    case ForCommand(cmd) =>
      if cmd == [0] {
        Closes(l, w, mine, c, []);
      } else {
        DeliversAnswer(l, w, mine, c);
      }
  }

  lemma ResumeCloses(l: Link, r: ReadResult)
    requires r.Valid() && !r.Got? && l.pc.Reading?
    requires l.pc.purpose.ForCommand? ==> |l.pc.purpose.cmd| <= MAX_PAYLOAD
    ensures Resume(l, l.pc.purpose, r) == Closing(l)
  {
    CM.FailedReadCloses(r, if l.pc.purpose.ForCommand? then l.pc.purpose.cmd else []);
  }

  lemma CommandFits(l: Link, w: Wire, mine: seq<Exchange>, c: Config)
    requires Fine(l, w, mine, c) && l.pc.Reading?
    ensures l.pc.purpose.ForCommand? ==> |l.pc.purpose.cmd| <= MAX_PAYLOAD
  {
  }

  // ---------- Client steps ----------

  // A failed read always closes the client, whatever it was waiting for.
  lemma ClientGivesUp(l: Link, v: View, mine: seq<Exchange>, c: Config)
    requires LinkInv(l, v, mine, c) && ClientCan(l, GiveUp)
    ensures LinkInv(ClientDo(l, GiveUp), v, mine, c)
    ensures ClientDo(l, GiveUp) == Closing(l)
  {
    hide Fine, Resume, ResultOf, Need;
    var w := WireOf(l, v);
    ResultIsValid(l.pc.got);
    CommandFits(Skeleton(l), w, mine, c);
    ResumeCloses(l, ResultOf(l.pc.got));
    assert Skeleton(Closing(l)) == Closing(Skeleton(l));
    assert WireOf(Closing(l), v) == w.(down := Down(Closing(l), v));
    Closes(Skeleton(l), w, mine, c, Down(Closing(l), v));
  }

  lemma ClientFinishes(l: Link, v: View, mine: seq<Exchange>, c: Config)
    requires l.pc.Reading?
    requires c.Valid() && LinkInv(l, v, mine, c) && ClientCan(l, Finish)
    ensures LinkInv(ClientDo(l, Finish), v, mine, c)
  {
    hide Fine, Resume, Reply, Need;
    ReadCompletes(l, v, mine, c);
    FinishOutcome(l, v, mine, c);
    var w, m := WireOf(l, v), Delivered(l, mine, c);
    assert w.down == l.pc.got && l.pc.got != [];
    Delivers(Skeleton(l), w, mine, c);
    assert Skeleton(m) == Delivered(Skeleton(l), mine, c);
    assert WireOf(m, v) == w.(down := []) by { NothingLeftDown(l, m, v); }
  }

  lemma NothingLeftDown(l: Link, m: Link, v: View)
    requires l.pc.Reading? && m.pc == Ready && m.up == l.up && m.down == l.down
    requires Down(l, v) == l.pc.got
    ensures WireOf(m, v) == WireOf(l, v).(down := [])
  {
    var more := l.down + if v.Replying? then v.rest else [];
    assert Down(l, v) == l.pc.got + more;
    assert |more| == 0;
    assert Down(m, v) == more;
  }

  // A step that only moves bytes.
  predicate Moves(a: ClientAct) {
    a.Put? || a.WriteDone? || a.Receive?
  }

  lemma Regroup(a: Data, b: Data, c: Data, k: nat)
    requires k <= |c|
    ensures a + (b + c[..k]) + c[k..] == a + b + c
  {
    assert c == c[..k] + c[k..];
  }

  lemma ClientPuts(l: Link, v: View, k: nat)
    requires ClientCan(l, Put(k))
    ensures Up(ClientDo(l, Put(k)), v) == Up(l, v) && Down(ClientDo(l, Put(k)), v) == Down(l, v)
  {
    Regroup(if v.Taking? then v.got else [], l.up, l.pc.rest, k);
  }

  lemma ClientEndsWrite(l: Link, v: View)
    requires ClientCan(l, WriteDone)
    ensures Up(ClientDo(l, WriteDone), v) == Up(l, v) && Down(ClientDo(l, WriteDone), v) == Down(l, v)
  {
  }

  lemma ClientTakes(l: Link, v: View, k: nat)
    requires ClientCan(l, Receive(k))
    ensures Up(ClientDo(l, Receive(k)), v) == Up(l, v) && Down(ClientDo(l, Receive(k)), v) == Down(l, v)
  {
    hide Need;
    Regroup([], l.pc.got, l.down, k);
    assert l.pc.got + l.down[..k] + l.down[k..] == l.pc.got + l.down;
  }

  lemma ClientMoves(l: Link, v: View, a: ClientAct)
    requires ClientCan(l, a) && Moves(a)
    ensures var m := ClientDo(l, a);
            Skeleton(m) == Skeleton(l) && WireOf(m, v) == WireOf(l, v) && m.session == l.session
  {
    hide Up, Down, Need;
    match a
    case Put(k) => ClientPuts(l, v, k);
    case WriteDone => ClientEndsWrite(l, v);
    case Receive(k) => ClientTakes(l, v, k);
  }

  lemma ClientBegins(l: Link, v: View, a: ClientAct)
    requires ClientCan(l, a) && (a.Authorize? || a.RequestAtr? || a.EmulatorReset? || a.EmulatorCommand?)
    ensures ClientCan(Skeleton(l), a)
    ensures var m := ClientDo(l, a);
            && Skeleton(m) == Skeleton(ClientDo(Skeleton(l), a)) && m.session == l.session
            && WireOf(m, v) == WireOf(l, v).(up := Up(l, v) + Request(l, a))
            && Request(l, a) == Request(Skeleton(l), a)
  {
    hide PrepareAuth, PrepareResetRequest, PrepareCmdRequest;
    assert Up(ClientDo(l, a), v) == Up(l, v) + Request(l, a);
  }

  lemma ClientKeeps(l: Link, v: View, mine: seq<Exchange>, a: ClientAct, c: Config)
    requires c.Valid() && LinkInv(l, v, mine, c) && ClientCan(l, a)
    ensures LinkInv(ClientDo(l, a), v, mine, c)
  {
    hide Fine, WireOf, ClientDo;
    StaysHonest(l, a);
    match a
    case Put(k) => ClientMoves(l, v, a);
    case WriteDone => ClientMoves(l, v, a);
    case Receive(k) => ClientMoves(l, v, a);
    case Finish => ClientFinishes(l, v, mine, c);
    case GiveUp => ClientGivesUp(l, v, mine, c);
    case Look => LooksMove(l, v);
      Looks(Skeleton(l), WireOf(l, v), mine, c);
    case EmulatorCommand(cmd) => ClientBegins(l, v, a);
      WireFields(l, v);
      Asks(Skeleton(l), WireOf(l, v), mine, cmd, c);
    case _ => ClientBegins(l, v, a);
      WireFields(l, v);
      Requests(Skeleton(l), WireOf(l, v), mine, a, c);
  }

  lemma StaysHonest(l: Link, a: ClientAct)
    requires ClientCan(l, a)
    ensures !ClientDo(l, a).stranger && ClientDo(l, a).session == l.session
  {
  }

  lemma WireFields(l: Link, v: View)
    ensures WireOf(l, v).up == Up(l, v) && WireOf(l, v).down == Down(l, v)
  {
  }

  lemma LooksMove(l: Link, v: View)
    requires ClientCan(l, Look)
    ensures ClientCan(Skeleton(l), Look)
    ensures Skeleton(ClientDo(l, Look)) == Skeleton(ClientDo(Skeleton(l), Look))
    ensures WireOf(ClientDo(l, Look), v) == WireOf(l, v)
  {
  }

  // ---------- The server and its sessions ----------

  lemma Accepts(l: Link, w: Wire, mine: seq<Exchange>, c: Config)
    requires Fine(l, w, mine, c) && l.session == Waiting
    ensures Fine(l.(session := On(SM.Init)), w, mine, c)
  {
    hide PrepareAuth, PrepareAuthReply, PrepareResetRequest, PrepareResetReply, PrepareCmdRequest, PrepareCmdReply;
    hide Answers, Logs, OneAtr, Gate;
    SameGate(l, l.(session := On(SM.Init)), c);
  }

  // Giving up on a connection, and sweeping it away: bytes on their way to the server may be lost.
  lemma Dies(l: Link, w: Wire, mine: seq<Exchange>, c: Config, session: Session, up: Data)
    requires Fine(l, w, mine, c) && l.session.On? && w.card == None
    requires session == Gone || session == On(SM.Closed)
    ensures Fine(l.(session := session), w.(up := up), mine, c)
  {
    hide PrepareAuth, PrepareAuthReply, PrepareResetRequest, PrepareResetReply, PrepareCmdRequest, PrepareCmdReply;
    hide Answers, Logs, OneAtr, Gate;
    SameGate(l, l.(session := session), c);
  }

  // What is on its way to a live session, when it is not at the card, is the request the client sent.
  lemma RequestOnItsWay(l: Link, w: Wire, mine: seq<Exchange>, c: Config)
    requires Fine(l, w, mine, c) && l.session.On? && l.session.st != SM.Closed && w.card == None && w.up != []
    ensures w.down == []
    ensures l.state == CM.Closed || Outstanding(l) != Nothing
    ensures l.session == On(SM.Init) ==> w.up == PrepareAuth(l.user, l.pass)
    ensures l.session == On(SM.Authorized) ==>
              || (w.up == PrepareResetRequest() && |l.asked| == |mine|)
              || (|l.asked| == |mine| + 1 && w.up == PrepareCmdRequest(l.asked[|mine|]))
  {
    hide PrepareAuth, PrepareAuthReply, PrepareResetRequest, PrepareResetReply, PrepareCmdRequest, PrepareCmdReply;
    hide Answers, OneAtr, Gate;
  }

  lemma AskedFits(l: Link, w: Wire, mine: seq<Exchange>, c: Config)
    requires Fine(l, w, mine, c)
    ensures |l.asked| == |mine| + 1 ==> |l.asked[|mine|]| <= MAX_PAYLOAD
    ensures |l.user| + |l.pass| + 6 <= 0xFFFF
  {
  }

  lemma RequestIsPacket(l: Link, w: Wire, mine: seq<Exchange>, c: Config)
    requires Fine(l, w, mine, c) && l.session.On? && l.session.st != SM.Closed && w.card == None && w.up != []
    ensures IsPacket(w.up)
  {
    hide Fine, PrepareAuth, PrepareResetRequest, PrepareCmdRequest, IsPacket;
    RequestOnItsWay(l, w, mine, c);
    AskedFits(l, w, mine, c);
    RequestsArePackets(l.user, l.pass, if |l.asked| == |mine| + 1 then l.asked[|mine|] else []);
  }

  // When the server has read a packet, it is the request the client sent and nothing else.
  lemma RequestArrives(l: Link, v: View, mine: seq<Exchange>, c: Config)
    requires v.Taking?
    requires LinkInv(l, v, mine, c) && ServerCan(l, v, Handle)
    ensures Up(l, v) == v.got && l.up == [] && Down(l, v) == []
    ensures l.session == On(SM.Init) ==> v.got == PrepareAuth(l.user, l.pass)
    ensures l.session == On(SM.Authorized) ==>
              || (v.got == PrepareResetRequest() && |l.asked| == |mine|)
              || (|l.asked| == |mine| + 1 && v.got == PrepareCmdRequest(l.asked[|mine|]))
  {
    hide Fine, PrepareAuth, PrepareResetRequest, PrepareCmdRequest, GetSize, Need;
    var w := WireOf(l, v);
    var more := l.up + if l.pc.Writing? then l.pc.rest else [];
    assert w.up == v.got + more && v.got != [];
    RequestOnItsWay(Skeleton(l), w, mine, c);
    RequestIsPacket(Skeleton(l), w, mine, c);
    Whole(v.got, more, w.up);
  }

  lemma DispatchAuth(l: Link, c: Config)
    requires c.Valid() && GoodCredentials(l.user, l.pass)
    ensures SM.Dispatch(SM.Init, PrepareAuth(l.user, l.pass), c.user, c.pass) ==
            if Match(l, c) then SM.Accept else SM.Refuse
  {
    hide PrepareAuth, GetSize;
    AuthRoundTrip(l.user, l.pass, c.user, c.pass);
    CStrOfNulFree(c.user);
    CStrOfNulFree(c.pass);
  }

  lemma DispatchRequest(cmd: Data, c: Config)
    requires |cmd| <= MAX_PAYLOAD
    ensures SM.Dispatch(SM.Authorized, PrepareResetRequest(), c.user, c.pass) == SM.SendAtr
    ensures SM.Dispatch(SM.Authorized, PrepareCmdRequest(cmd), c.user, c.pass) == SM.RunCommand(cmd)
  {
    hide Frame, GetSize;
    FrameRoundTrip(ResetRequest, []);
    FrameRoundTrip(CmdRequest, cmd);
    assert Payload(PrepareResetRequest(), ResetRequest) == Some([]);
    assert Payload(PrepareCmdRequest(cmd), CmdRequest) == Some(cmd);
    assert Payload(PrepareCmdRequest(cmd), ResetRequest) == None;
  }

  // The wire once the server has taken the whole request and decided what to do.
  function WireAfter(v: View): Wire {
    Wire([], if v.Replying? then v.rest else [], if v.AtCard? then Some(v.cmd) else None)
  }

  // What handling a packet promises: the invariant, and an untouched card or the next command
  // written to it.
  predicate Handled(e: ServerEffect, l: Link, conn: nat, mine: seq<Exchange>, c: Config) {
    && Fine(e.link, WireAfter(e.view), mine, c) && ViewFits(e.link, e.view)
    && (if e.view.AtCard? then
          |l.asked| == |mine| + 1 && e.view.cmd == l.asked[|mine|] && e.ops == [CardWrite(conn, e.view.cmd)]
        else !e.view.Taking? && e.ops == [])
  }

  lemma HandlesAuth(l: Link, conn: nat, w: Wire, mine: seq<Exchange>, c: Config)
    requires c.Valid() && Fine(l, w, mine, c) && l.session == On(SM.Init) && w.card == None && w.up != []
    ensures Handled(OnPacket(l, conn, w.up, c), l, conn, mine, c)
  {
    hide PrepareAuth, PrepareAuthReply, PrepareResetRequest, PrepareResetReply, PrepareCmdRequest, PrepareCmdReply;
    hide Answers, Logs, OneAtr, SM.Dispatch;
    RequestOnItsWay(l, w, mine, c);
    DispatchAuth(l, c);
  }

  lemma HandlesReset(l: Link, conn: nat, w: Wire, mine: seq<Exchange>, c: Config)
    requires c.Valid() && Fine(l, w, mine, c) && l.session == On(SM.Authorized) && w.card == None && w.up != []
    requires |l.asked| == |mine|
    ensures Handled(OnPacket(l, conn, w.up, c), l, conn, mine, c)
  {
    hide PrepareAuth, PrepareAuthReply, PrepareResetRequest, PrepareResetReply, PrepareCmdRequest, PrepareCmdReply;
    hide Answers, Logs, OneAtr, SM.Dispatch;
    RequestOnItsWay(l, w, mine, c);
    DispatchRequest([], c);
  }

  lemma HandlesCommand(l: Link, conn: nat, w: Wire, mine: seq<Exchange>, c: Config)
    requires c.Valid() && Fine(l, w, mine, c) && l.session == On(SM.Authorized) && w.card == None && w.up != []
    requires |l.asked| == |mine| + 1
    ensures Handled(OnPacket(l, conn, w.up, c), l, conn, mine, c)
  {
    hide PrepareAuth, PrepareAuthReply, PrepareResetRequest, PrepareResetReply, PrepareCmdRequest, PrepareCmdReply;
    hide Answers, Logs, OneAtr, SM.Dispatch;
    RequestOnItsWay(l, w, mine, c);
    AskedFits(l, w, mine, c);
    DispatchRequest(l.asked[|mine|], c);
  }

  // ---------- Server steps ----------

  lemma ServerHandles(l: Link, conn: nat, v: View, mine: seq<Exchange>, c: Config)
    requires v.Taking?
    requires c.Valid() && LinkInv(l, v, mine, c) && ServerCan(l, v, Handle)
    ensures var e := ServerDo(l, conn, v, Handle, c);
            && LinkInv(e.link, e.view, mine, c)
            && (if e.view.AtCard? then
                  |l.asked| == |mine| + 1 && e.view.cmd == l.asked[|mine|] && e.ops == [CardWrite(conn, e.view.cmd)]
                else !e.view.Taking? && e.ops == [])
  {
    hide Fine, SM.Dispatch, Need, IsPacket, PrepareAuth, PrepareAuthReply, PrepareResetRequest, PrepareResetReply;
    RequestArrives(l, v, mine, c);
    var k, w := Skeleton(l), WireOf(l, v);
    assert v.got != [] && w.up == v.got by { PacketNotEmpty(v.got); }
    LogsBound(k, w, mine, c);
    if l.session == On(SM.Init) {
      HandlesAuth(k, conn, w, mine, c);
    } else if |l.asked| == |mine| {
      HandlesReset(k, conn, w, mine, c);
    } else {
      HandlesCommand(k, conn, w, mine, c);
    }
    var e := ServerDo(l, conn, v, Handle, c);
    assert Skeleton(e.link) == OnPacket(k, conn, w.up, c).link;
    assert WireOf(e.link, e.view) == WireAfter(e.view) by { AllTaken(l, v, e.link, e.view); }
  }

  lemma PacketNotEmpty(p: Data)
    requires IsPacket(p)
    ensures p != []
  {
  }

  lemma LogsBound(l: Link, w: Wire, mine: seq<Exchange>, c: Config)
    requires Fine(l, w, mine, c)
    ensures |mine| <= |l.asked| <= |mine| + 1
  {
  }

  lemma AllTaken(l: Link, v: View, m: Link, after: View)
    requires v.Taking? && !after.Taking? && Up(l, v) == v.got && Down(l, v) == []
    requires m.pc == l.pc && m.up == l.up && m.down == l.down
    ensures WireOf(m, after) == WireAfter(after)
  {
    assert Up(l, v) == v.got + (l.up + if l.pc.Writing? then l.pc.rest else []);
    assert |l.up + if l.pc.Writing? then l.pc.rest else []| == 0;
    assert Up(m, after) == [];
    assert l.down == [] && (l.pc.Reading? ==> l.pc.got == []);
  }

  // A server step that only moves bytes.
  predicate ServerMoves(a: ServerAct) {
    a.Begin? || a.Take? || a.Send? || a.SendDone?
  }

  lemma ServerMovesBytes(l: Link, conn: nat, v: View, a: ServerAct, c: Config)
    requires ServerCan(l, v, a) && ServerMoves(a) && ViewFits(l, v)
    ensures var e := ServerDo(l, conn, v, a, c);
            && Skeleton(e.link) == Skeleton(l) && WireOf(e.link, e.view) == WireOf(l, v)
            && ViewFits(e.link, e.view) && e.ops == [] && !e.view.AtCard? && e.link.stranger == l.stranger
  {
    hide GetSize, Need;
    var e := ServerDo(l, conn, v, a, c);
    if a.Begin? || a.Take? {
      ServerTakes(l, v, e.link, e.view, if a.Take? then l.up[..a.k] else []);
    } else {
      ServerSends(l, v, e.link, e.view, if a.Send? then v.rest[..a.k] else []);
    }
  }

  lemma ServerTakes(l: Link, v: View, m: Link, after: View, taken: Data)
    requires (v == Off && taken == []) || (v.Taking? && |v.got| + |taken| <= Need(v.got))
    requires ViewFits(l, v) && l.session.On? && l.session.st != SM.Closed
    requires l.up == taken + m.up && m == l.(up := m.up)
    requires after == Taking((if v.Taking? then v.got else []) + taken)
    ensures WireOf(m, after) == WireOf(l, v) && ViewFits(m, after)
  {
    hide GetSize, Need;
    assert Up(m, after) == Up(l, v);
    TakesPart(if v.Taking? then v.got else [], taken);
  }

  lemma ServerSends(l: Link, v: View, m: Link, after: View, sent: Data)
    requires v.Replying? && m == l.(down := m.down) && m.down == l.down + sent
    requires (after.Replying? && v.rest == sent + after.rest) || (after == Off && v.rest == sent == [])
    ensures WireOf(m, after) == WireOf(l, v)
  {
    assert Down(m, after) == Down(l, v);
  }

  lemma TakesPart(got: Data, taken: Data)
    requires |got| + |taken| <= Need(got)
    ensures |got + taken| <= Need(got + taken)
  {
    if HEADER <= |got| {
      NeedOfPrefix(got, got + taken);
    }
  }

  // Every step other than handling a packet and passing on the card's answer.
  lemma ServerKeeps(l: Link, conn: nat, v: View, mine: seq<Exchange>, a: ServerAct, c: Config)
    requires LinkInv(l, v, mine, c) && ServerCan(l, v, a) && !a.Handle? && !a.CardAnswers?
    ensures var e := ServerDo(l, conn, v, a, c);
            LinkInv(e.link, e.view, mine, c) && e.ops == [] && !e.view.AtCard?
  {
    hide Fine, ServerDo, WireOf;
    var k, w := Skeleton(l), WireOf(l, v);
    if ServerMoves(a) {
      ServerMovesBytes(l, conn, v, a, c);
    } else {
      SessionChanges(l, conn, v, a, c);
      if a.AcceptConn? {
        Accepts(k, w, mine, c);
      } else {
        var e := ServerDo(l, conn, v, a, c);
        Dies(k, w, mine, c, e.link.session, WireOf(e.link, e.view).up);
      }
    }
  }

  lemma SessionChanges(l: Link, conn: nat, v: View, a: ServerAct, c: Config)
    requires ServerCan(l, v, a) && ViewFits(l, v) && (a.AcceptConn? || a.Abandon? || a.Sweep?)
    ensures var e := ServerDo(l, conn, v, a, c);
            && Skeleton(e.link) == Skeleton(l).(session := e.link.session) && e.view == Off && e.ops == []
            && e.link.stranger == l.stranger && WireOf(l, v).card == None
            && WireOf(e.link, e.view) == WireOf(l, v).(up := WireOf(e.link, e.view).up)
            && (if a.AcceptConn? then
                  l.session == Waiting && e.link.session == On(SM.Init) && WireOf(e.link, e.view) == WireOf(l, v)
                else l.session.On? && (e.link.session == Gone || e.link.session == On(SM.Closed)))
  {
  }

  lemma Replies(l: Link, mine: seq<Exchange>, x: Exchange, cmd: Data, w: Wire, c: Config)
    requires Fine(l, w, mine, c) && w.card == Some(cmd) && x.cmd == cmd && |x.reply| <= MAX_PAYLOAD
    ensures |l.asked| == |mine| + 1 && cmd == l.asked[|mine|]
    ensures w == Wire([], [], Some(cmd))
    ensures Fine(l, Wire([], PrepareCmdReply(x.reply), None), mine + [x], c)
  {
    hide PrepareAuth, PrepareAuthReply, PrepareResetRequest, PrepareResetReply, PrepareCmdRequest, PrepareCmdReply;
    hide Answers, OneAtr, Gate;
  }

  lemma ServerReplies(l: Link, conn: nat, v: View, mine: seq<Exchange>, reply: Data, c: Config)
    requires v.AtCard?
    requires LinkInv(l, v, mine, c) && ServerCan(l, v, CardAnswers(reply))
    ensures |l.asked| == |mine| + 1 && v.cmd == l.asked[|mine|]
    ensures var e := ServerDo(l, conn, v, CardAnswers(reply), c);
            && e.view == Replying(PrepareCmdReply(reply)) && e.ops == [CardRead(conn, reply)]
            && LinkInv(e.link, e.view, mine + [Exchange(conn, v.cmd, reply)], c)
  {
    hide Fine, PrepareCmdReply;
    Replies(Skeleton(l), mine, Exchange(conn, v.cmd, reply), v.cmd, WireOf(l, v), c);
    var e := ServerDo(l, conn, v, CardAnswers(reply), c);
    assert Up(e.link, e.view) == Up(l, v) == [];
    assert Down(e.link, e.view) == Down(l, v) + PrepareCmdReply(reply);
    assert WireOf(e.link, e.view) == Wire([], PrepareCmdReply(reply), None);
  }
}
