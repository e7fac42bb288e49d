// Any number of clients, any number of strangers, one server and one card reader, joined by a pair of
// byte queues per connection. Each process moves in steps as small as its system calls: a read takes
// any number of the bytes that have arrived, a write puts out any number of the bytes that are left
// to write, and any other process may move in between. Strangers send whatever they like.
module System {
  import opened Bytes
  import opened Protocol
  import opened Framing
  import SM = SessionMachine
  import CM = ClientMachine

  type Config = SM.Config

  // ---------- State ----------

  datatype Purpose = ForAuth | ForAtr | ForReset | ForCommand(cmd: Data)

  // What a client does once it has written a request: end the tick, or read the answer.
  datatype Afterwards = Return | Await(purpose: Purpose)

  // Where a client process is: between ticks, in the middle of a write, or blocked in
  // PSCProxyProtocol::read.
  datatype ClientPc = Ready | Writing(rest: Data, next: Afterwards) | Reading(got: Data, purpose: Purpose)

  datatype EmuWrite = Answer(data: Data) | Atr(data: Data)

  // One client with its emulator, the two queues, and the server's session for it. The logs asked
  // and out record the commands the client sent and everything its emulator was handed. Of a
  // stranger nothing is known but the bytes it has put into its queue.
  datatype Link = Link(
    user: Data, pass: Data, stranger: bool, state: CM.State, pc: ClientPc, cached: Data,
    up: Data, down: Data,
    session: Session,
    asked: seq<Data>, out: seq<EmuWrite>)

  // Waiting is a connection not yet accepted, Gone one that the server has closed.
  datatype Session = Waiting | On(st: SM.State) | Gone

  // What the server's one thread is doing for a given connection.
  datatype View = Off | Taking(got: Data) | AtCard(cmd: Data) | Replying(rest: Data)

  datatype ServerPc = Free | Busy(conn: nat, view: View)

  datatype CardOp = CardWrite(conn: nat, cmd: Data) | CardRead(conn: nat, reply: Data)

  datatype State = State(links: seq<Link>, pc: ServerPc, ops: seq<CardOp>)

  predicate GoodCredentials(user: Data, pass: Data) {
    NulFree(user) && NulFree(pass) && |user| + |pass| + 6 <= 0xFFFF
  }

  function NewLink(user: Data, pass: Data): Link {
    Link(user, pass, false, CM.Init, Ready, [], [], [], Waiting, [], [])
  }

  function NewStranger(): Link {
    NewLink([], []).(stranger := true)
  }

  // ---------- Client steps ----------

  datatype ClientAct =
    | Authorize | Look | RequestAtr
    | EmulatorReset | EmulatorCommand(cmd: Data)
    | Put(k: nat) | WriteDone
    | Receive(k: nat) | Finish | GiveUp

  predicate ClientCan(l: Link, a: ClientAct) {
    !l.stranger &&
    match a
    case Authorize => l.pc == Ready && l.state == CM.Init
    case Look => l.pc == Ready && (l.state == CM.AuthRequested || l.state == CM.AwaitingAtr)
    case RequestAtr => l.pc == Ready && l.state == CM.Authorized
    case EmulatorReset => l.pc == Ready && l.state == CM.Idle
    case EmulatorCommand(cmd) => l.pc == Ready && l.state == CM.Idle && |cmd| <= MAX_PAYLOAD
    case Put(k) => l.pc.Writing? && 1 <= k <= |l.pc.rest|
    case WriteDone => l.pc.Writing? && l.pc.rest == []
    case Receive(k) => l.pc.Reading? && 1 <= k <= |l.down| && |l.pc.got| + k <= Need(l.pc.got)
    case Finish => l.pc.Reading? && IsPacket(l.pc.got)
    case GiveUp => l.pc.Reading? && |l.pc.got| < Need(l.pc.got)
  }

  // The rest of a client tick once its read has returned.
  function Resume(l: Link, purpose: Purpose, r: ReadResult): Link {
    var m := l.(pc := Ready);
    match purpose
    case ForAuth => m.(state := CM.AfterAuthReply(r))
    case ForAtr =>
      (match CM.AtrToCache(r)
       case Some(atr) => m.(state := CM.Idle, cached := atr)
       case None => m.(state := CM.Closed))
    case ForReset =>
      (match CM.ResetAnswer(r)
       case Some(atr) => m.(out := l.out + [Atr(atr)])
       case None => m.(state := CM.Closed))
    case ForCommand(cmd) =>
      (match CM.CommandAnswer(cmd, r)
       case Some(answer) => m.(out := l.out + [Answer(answer)])
       case None => m.(state := CM.Closed))
  }

  function AfterWrite(next: Afterwards): ClientPc {
    match next
    case Return => Ready
    case Await(purpose) => Reading([], purpose)
  }

  // The state a tick leaves is assigned when its write begins: nobody else can look at it.
  function ClientDo(l: Link, a: ClientAct): Link
    requires ClientCan(l, a)
  {
    match a
    case Authorize => l.(pc := Writing(PrepareAuth(l.user, l.pass), Return), state := CM.AuthRequested)
    case Look => l.(pc := Reading([], if l.state == CM.AuthRequested then ForAuth else ForAtr))
    case RequestAtr => l.(pc := Writing(PrepareResetRequest(), Return), state := CM.AwaitingAtr)
    case EmulatorReset => l.(pc := Writing(PrepareResetRequest(), Await(ForReset)))
    case EmulatorCommand(cmd) =>
      l.(pc := Writing(CM.RequestFor(cmd), Await(ForCommand(cmd))),
         asked := if cmd == [0] then l.asked else l.asked + [cmd])
    case Put(k) => l.(pc := Writing(l.pc.rest[k..], l.pc.next), up := l.up + l.pc.rest[..k])
    case WriteDone => l.(pc := AfterWrite(l.pc.next))
    case Receive(k) => l.(pc := Reading(l.pc.got + l.down[..k], l.pc.purpose), down := l.down[k..])
    case Finish => Resume(l, l.pc.purpose, Got(l.pc.got))
    case GiveUp => Resume(l, l.pc.purpose, ResultOf(l.pc.got))
  }

  // ---------- Server steps ----------

  datatype ServerAct =
    | AcceptConn | Begin | Take(k: nat) | Handle | Abandon | CardAnswers(reply: Data)
    | Send(k: nat) | SendDone | Sweep

  predicate ServerCan(l: Link, v: View, a: ServerAct) {
    match a
    case AcceptConn => v == Off && l.session == Waiting
    case Begin => v == Off && l.session.On? && l.session.st != SM.Closed
    case Take(k) => v.Taking? && 1 <= k <= |l.up| && |v.got| + k <= Need(v.got)
    case Handle => v.Taking? && IsPacket(v.got) && l.session.On? && l.session.st != SM.Closed
    case Abandon => v.Taking? && |v.got| < Need(v.got)
    case CardAnswers(reply) => v.AtCard? && |reply| <= MAX_PAYLOAD
    case Send(k) => v.Replying? && 1 <= k <= |v.rest|
    case SendDone => v.Replying? && v.rest == []
    case Sweep => v == Off && l.session == On(SM.Closed)
  }

  // The new link, what the server does next, and what it did to the card reader.
  datatype ServerEffect = ServerEffect(link: Link, view: View, ops: seq<CardOp>)

  function OnPacket(l: Link, conn: nat, p: Data, c: Config): ServerEffect
    requires l.session.On? && l.session.st != SM.Closed
  {
    var v := SM.Dispatch(l.session.st, p, c.user, c.pass);
    var m := l.(session := On(SM.After(l.session.st, v)));
    match v
    case Accept => ServerEffect(m, Replying(PrepareAuthReply(true)), [])
    case Refuse => ServerEffect(m, Replying(PrepareAuthReply(false)), [])
    case SendAtr => ServerEffect(m, Replying(PrepareResetReply(c.atr)), [])
    case RunCommand(cmd) => ServerEffect(m, AtCard(cmd), [CardWrite(conn, cmd)])
    case Drop => ServerEffect(m, Off, [])
  }

  function ServerDo(l: Link, conn: nat, v: View, a: ServerAct, c: Config): ServerEffect
    requires ServerCan(l, v, a)
  {
    match a
    case AcceptConn => ServerEffect(l.(session := On(SM.Init)), Off, [])
    case Begin => ServerEffect(l, Taking([]), [])
    case Take(k) => ServerEffect(l.(up := l.up[k..]), Taking(v.got + l.up[..k]), [])
    case Handle => OnPacket(l, conn, v.got, c)
    case Abandon => ServerEffect(l.(session := On(SM.Closed)), Off, [])
    case CardAnswers(reply) => ServerEffect(l, Replying(PrepareCmdReply(reply)), [CardRead(conn, reply)])
    case Send(k) => ServerEffect(l.(down := l.down + v.rest[..k]), Replying(v.rest[k..]), [])
    case SendDone => ServerEffect(l, Off, [])
    case Sweep => ServerEffect(l.(session := Gone), Off, [])
  }

  // ---------- The whole system ----------

  datatype Step =
    | Connect(user: Data, pass: Data)
    | Intrude
    | Inject(i: nat, bytes: Data)
    | Client(i: nat, ca: ClientAct)
    | Server(i: nat, sa: ServerAct)

  function ViewOf(s: State, i: nat): View {
    if s.pc.Busy? && s.pc.conn == i then s.pc.view else Off
  }

  predicate Can(s: State, step: Step) {
    match step
    case Connect(user, pass) => GoodCredentials(user, pass)
    case Intrude => true
    case Inject(i, _) => i < |s.links| && s.links[i].stranger
    case Client(i, a) => i < |s.links| && ClientCan(s.links[i], a)
    case Server(i, a) =>
      i < |s.links| && (s.pc.Busy? ==> s.pc.conn == i) && ServerCan(s.links[i], ViewOf(s, i), a)
  }

  function Do(s: State, step: Step, c: Config): State
    requires Can(s, step)
  {
    match step
    case Connect(user, pass) => s.(links := s.links + [NewLink(user, pass)])
    case Intrude => s.(links := s.links + [NewStranger()])
    case Inject(i, bytes) => s.(links := s.links[i := s.links[i].(up := s.links[i].up + bytes)])
    case Client(i, a) => s.(links := s.links[i := ClientDo(s.links[i], a)])
    case Server(i, a) =>
      var e := ServerDo(s.links[i], i, ViewOf(s, i), a, c);
      State(s.links[i := e.link], if e.view.Off? then Free else Busy(i, e.view), s.ops + e.ops)
  }

  const START := State([], Free, [])

  // The state after a schedule of steps; steps that are not enabled are skipped.
  function Run(steps: seq<Step>, c: Config): State {
    if steps == [] then START
    else
      var s := Run(steps[..|steps| - 1], c);
      var step := steps[|steps| - 1];
      if Can(s, step) then Do(s, step, c) else s
  }

  // ---------- The reader's history ----------

  datatype Exchange = Exchange(conn: nat, cmd: Data, reply: Data)

  // Writes and reads alternate, and a read belongs to the connection of the write before it.
  predicate Serial(ops: seq<CardOp>) {
    forall k | 0 <= k < |ops| :: SerialAt(ops, k)
  }

  predicate SerialAt(ops: seq<CardOp>, k: nat)
    requires k < |ops|
  {
    if k % 2 == 0 then ops[k].CardWrite?
    else ops[k].CardRead? && ops[k - 1].CardWrite? && ops[k].conn == ops[k - 1].conn
  }

  function Exchanges(ops: seq<CardOp>): seq<Exchange>
    requires Serial(ops)
  {
    seq(|ops| / 2, k requires 0 <= k < |ops| / 2 =>
      assert SerialAt(ops, 2 * k) && SerialAt(ops, 2 * k + 1);
      Exchange(ops[2 * k].conn, ops[2 * k].cmd, ops[2 * k + 1].reply))
  }

  // The part of the history that belongs to one connection.
  function Mine(ex: seq<Exchange>, i: nat): seq<Exchange> {
    if ex == [] then []
    else
      var last := ex[|ex| - 1];
      Mine(ex[..|ex| - 1], i) + (if last.conn == i then [last] else [])
  }

  lemma {:induction false} MineAppend(ex: seq<Exchange>, e: Exchange, i: nat)
    ensures Mine(ex + [e], i) == Mine(ex, i) + (if e.conn == i then [e] else [])
  {
    assert (ex + [e])[..|ex|] == ex;
  }

  lemma {:induction false} MineOfStranger(ex: seq<Exchange>, i: nat)
    requires forall k | 0 <= k < |ex| :: ex[k].conn < i
    ensures Mine(ex, i) == []
  {
    if ex != [] {
      MineOfStranger(ex[..|ex| - 1], i);
    }
  }

  lemma SerialWrite(ops: seq<CardOp>, op: CardOp)
    requires Serial(ops) && |ops| % 2 == 0 && op.CardWrite?
    ensures Serial(ops + [op])
    ensures Exchanges(ops + [op]) == Exchanges(ops)
  {
    assert forall k | 0 <= k < |ops| :: SerialAt(ops, k) ==> SerialAt(ops + [op], k);
  }

  lemma SerialRead(ops: seq<CardOp>, op: CardOp)
    requires Serial(ops) && |ops| % 2 == 1 && op.CardRead? && ops[|ops| - 1].conn == op.conn
    ensures Serial(ops + [op])
    ensures ops[|ops| - 1].CardWrite?
    ensures Exchanges(ops + [op]) == Exchanges(ops) + [Exchange(op.conn, ops[|ops| - 1].cmd, op.reply)]
  {
    assert SerialAt(ops, |ops| - 1);
    assert forall k | 0 <= k < |ops| :: SerialAt(ops, k) ==> SerialAt(ops + [op], k);
    assert |ops| == 2 * (|ops| / 2) + 1;
  }

  // ---------- What the emulators were handed ----------

  function Answers(out: seq<EmuWrite>): seq<Data> {
    if out == [] then []
    else
      var w := out[|out| - 1];
      Answers(out[..|out| - 1]) + (if w.Answer? then [w.data] else [])
  }

  lemma {:induction false} AnswersAppend(out: seq<EmuWrite>, w: EmuWrite)
    ensures Answers(out + [w]) == Answers(out) + (if w.Answer? then [w.data] else [])
  {
    assert (out + [w])[..|out|] == out;
  }
}
