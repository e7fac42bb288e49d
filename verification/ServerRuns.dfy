// The server by itself, against peers that may send anything: one step of a session, and what
// holds over every run of sessions accepted, ticked in any order and swept away.
module ServerModel {
  import opened Bytes
  import opened Protocol
  import opened Framing
  import SM = SessionMachine

  type Config = SM.Config

  // What one tick of a session finds on its socket: nothing, a packet it could not finish reading,
  // or a packet. The reply is what the card reader answers, in case the packet makes the session
  // ask it.
  datatype Observation = NothingNew | ReadFailed(taken: Data) | Read(packet: Data, reply: Data) {
    predicate Valid() {
      match this
      case NothingNew => true
      case ReadFailed(taken) => |taken| < Need(taken)
      case Read(p, _) => IsPacket(p)
    }

    // The bytes it takes off the stream.
    function Took(): Data {
      match this
      case NothingNew => []
      case ReadFailed(taken) => taken
      case Read(p, _) => p
    }
  }

  // What a session does that others can see. The answer to an authentication is recorded together
  // with the packet it answers.
  datatype Act =
    | AuthReplied(ok: bool, request: Data)
    | AtrSent(atr: Data)
    | CardWrite(cmd: Data)
    | CardRead(reply: Data)
    | ReplySent(cmdReply: Data)

  datatype Outcome = Outcome(st: SM.State, acts: seq<Act>)

  function ActsOf(v: SM.Verdict, p: Data, reply: Data, atr: Data): seq<Act> {
    match v
    case Accept => [AuthReplied(true, p)]
    case Refuse => [AuthReplied(false, p)]
    case SendAtr => [AtrSent(atr)]
    case RunCommand(cmd) => [CardWrite(cmd), CardRead(reply), ReplySent(reply)]
    case Drop => []
  }

  // Client::tick
  function Tick(st: SM.State, o: Observation, c: Config): Outcome {
    if st == SM.Closed then Outcome(st, [])
    else match o
    case NothingNew => Outcome(st, [])
    case ReadFailed(_) => Outcome(SM.Closed, [])
    case Read(p, reply) =>
      var v := SM.Dispatch(st, p, c.user, c.pass);
      Outcome(SM.After(st, v), ActsOf(v, p, reply, c.atr))
  }

  // The bytes an act puts on the session's socket.
  function Wire(a: Act): Data {
    match a
    case AuthReplied(ok, _) => PrepareAuthReply(ok)
    case AtrSent(atr) => PrepareResetReply(atr)
    case ReplySent(reply) => PrepareCmdReply(reply)
    case CardWrite(_) => []
    case CardRead(_) => []
  }

  function Wires(acts: seq<Act>): Data {
    if acts == [] then [] else Wires(acts[..|acts| - 1]) + Wire(acts[|acts| - 1])
  }

  predicate AtCard(a: Act) {
    a.CardWrite? || a.CardRead?
  }

  // The part that goes to the card reader.
  function CardActs(acts: seq<Act>): seq<Act> {
    if acts == [] then []
    else CardActs(acts[..|acts| - 1]) + (if AtCard(acts[|acts| - 1]) then [acts[|acts| - 1]] else [])
  }

  // After authorisation, a session survives a packet exactly when it is a reset or command request.
  lemma OtherPacketsClose(p: Data, reply: Data, c: Config)
    ensures Tick(SM.Authorized, Read(p, reply), c).st == SM.Authorized <==>
            Sane(p, ResetRequest) || Sane(p, CmdRequest)
    ensures !Sane(p, ResetRequest) && !Sane(p, CmdRequest) ==>
              Tick(SM.Authorized, Read(p, reply), c) == Outcome(SM.Closed, [])
  {
    hide GetSize;
  }

  lemma NoActs()
    ensures Wires([]) == [] && CardActs([]) == []
  {
  }

  lemma WiresOfOne(a: Act)
    requires !AtCard(a)
    ensures Wires([a]) == Wire(a) && CardActs([a]) == []
  {
    hide Frame;
    assert [a][..0] == [];
    assert Wires([]) == [] && CardActs([]) == [];
  }

  lemma WiresOfCommand(cmd: Data, reply: Data)
    ensures var acts := [CardWrite(cmd), CardRead(reply), ReplySent(reply)];
            && Wires(acts) == PrepareCmdReply(reply)
            && CardActs(acts) == [CardWrite(cmd), CardRead(reply)]
  {
    hide Frame;
    var a: seq<Act> := [CardWrite(cmd)];
    var ab := a + [CardRead(reply)];
    WiresAppend([], CardWrite(cmd));
    assert [] + [CardWrite(cmd)] == a;
    WiresAppend(a, CardRead(reply));
    WiresAppend(ab, ReplySent(reply));
    assert ab + [ReplySent(reply)] == [CardWrite(cmd), CardRead(reply), ReplySent(reply)];
  }

  lemma {:induction false} WiresAppend(acts: seq<Act>, a: Act)
    ensures Wires(acts + [a]) == Wires(acts) + Wire(a)
    ensures CardActs(acts + [a]) == CardActs(acts) + (if AtCard(a) then [a] else [])
  {
    hide Frame;
    assert (acts + [a])[..|acts|] == acts;
  }

  // What one round of ticks does to the card reader.
  function CardLog(states: seq<SM.State>, obs: seq<Observation>, c: Config): seq<Act>
    requires |states| == |obs|
  {
    if obs == [] then []
    else
      var n := |obs| - 1;
      CardLog(states[..n], obs[..n], c) + CardActs(Tick(states[n], obs[n], c).acts)
  }

  lemma {:induction false} NoCardLog(c: Config)
    ensures CardLog([], [], c) == []
  {
  }

  lemma {:induction false} CardLogExtend(states: seq<SM.State>, obs: seq<Observation>, st: SM.State, o: Observation,
                                         c: Config)
    requires |states| == |obs|
    ensures CardLog(states + [st], obs + [o], c) == CardLog(states, obs, c) + CardActs(Tick(st, o, c).acts)
  {
    hide Tick, CardActs;
    assert (states + [st])[..|obs|] == states && (obs + [o])[..|obs|] == obs;
  }
}

module ServerRuns {
  import opened Bytes
  import opened Protocol
  import opened ServerModel
  import opened SweepModel
  import SM = SessionMachine

  // A session in the vector: a serial number that is never used again, its descriptor, its state.
  datatype Conn = Conn(id: nat, fd: nat, st: SM.State)

  datatype Event = Event(conn: nat, act: Act)

  datatype State = State(conns: seq<Conn>, nextId: nat, log: seq<Event>)

  datatype Step = Accept(fd: nat) | TickOne(k: nat, o: Observation) | Sweep

  const START := State([], 0, [])

  function Tag(id: nat, acts: seq<Act>): seq<Event> {
    seq(|acts|, k requires 0 <= k < |acts| => Event(id, acts[k]))
  }

  function ClosedIn(conns: seq<Conn>): set<Conn> {
    set x | x in conns && x.st == SM.Closed
  }

  // What a sweep leaves: see SweepModel for when the code gets there.
  function Live(conns: seq<Conn>): seq<Conn> {
    Keep(conns, ClosedIn(conns))
  }

  // The kernel never hands out a descriptor that is still open.
  predicate Can(s: State, step: Step) {
    match step
    case Accept(fd) => forall k | 0 <= k < |s.conns| :: s.conns[k].fd != fd
    case TickOne(k, o) => k < |s.conns|
    case Sweep => true
  }

  function Do(s: State, step: Step, c: Config): State
    requires Can(s, step)
  {
    match step
    case Accept(fd) => State(s.conns + [Conn(s.nextId, fd, SM.Init)], s.nextId + 1, s.log)
    case TickOne(k, o) =>
      var conn := s.conns[k];
      var r := Tick(conn.st, o, c);
      s.(conns := s.conns[k := conn.(st := r.st)], log := s.log + Tag(conn.id, r.acts))
    case Sweep => s.(conns := Live(s.conns))
  }

  function RunFrom(s: State, steps: seq<Step>, c: Config): State {
    if steps == [] then s
    else
      var t := RunFrom(s, steps[..|steps| - 1], c);
      if Can(t, steps[|steps| - 1]) then Do(t, steps[|steps| - 1], c) else t
  }

  // ---------- What the log looks like ----------

  predicate Privileged(a: Act) {
    a.AtrSent? || a.CardWrite? || a.CardRead? || a.ReplySent?
  }

  // A packet that parseAuth accepts for the server's credentials was read on this connection.
  predicate Admitted(log: seq<Event>, id: nat, c: Config) {
    exists k :: 0 <= k < |log| && Admits(log[k], id, c)
  }

  predicate Admits(e: Event, id: nat, c: Config) {
    e.conn == id && e.act.AuthReplied? && ParseAuth(e.act.request, c.user, c.pass)
  }

  // Everything done for a connection apart from answering its authentication comes after a packet
  // that parseAuth accepted on that same connection.
  predicate Gated(log: seq<Event>, c: Config) {
    forall k | 0 <= k < |log| :: Privileged(log[k].act) ==> Admitted(log[..k], log[k].conn, c)
  }

  // The answer to an authentication says what parseAuth said of the packet.
  predicate Truthful(log: seq<Event>, c: Config) {
    forall k | 0 <= k < |log| && log[k].act.AuthReplied? ::
      log[k].act.ok == ParseAuth(log[k].act.request, c.user, c.pass)
  }

  // A connection's authentication is answered at most once.
  predicate AuthOnce(log: seq<Event>) {
    forall j, k | 0 <= j < k < |log| ::
      log[j].act.AuthReplied? && log[k].act.AuthReplied? ==> log[j].conn != log[k].conn
  }

  // A write to the card, the read that follows it and the reply to the client are never separated,
  // and belong to one connection and one answer.
  predicate Serialised(log: seq<Event>) {
    forall k | 0 <= k < |log| :: TripleAt(log, k)
  }

  predicate TripleAt(log: seq<Event>, k: nat)
    requires k < |log|
  {
    match log[k].act
    case CardWrite(_) =>
      k + 2 < |log| && log[k + 1].act.CardRead? &&
      log[k + 1].conn == log[k].conn == log[k + 2].conn && log[k + 2].act == ReplySent(log[k + 1].act.reply)
    case CardRead(r) =>
      0 < k && k + 1 < |log| && log[k - 1].act.CardWrite? &&
      log[k - 1].conn == log[k].conn == log[k + 1].conn && log[k + 1].act == ReplySent(r)
    case ReplySent(r) =>
      1 < k && log[k - 2].act.CardWrite? && log[k - 1].act == CardRead(r) &&
      log[k - 2].conn == log[k - 1].conn == log[k].conn
    case _ => true
  }

  predicate OneAtr(log: seq<Event>, atr: Data) {
    forall k | 0 <= k < |log| :: log[k].act.AtrSent? ==> log[k].act.atr == atr
  }

  // The answers read from the card for one connection, and the replies sent on it.
  function ReadsFor(log: seq<Event>, id: nat): seq<Data> {
    if log == [] then []
    else
      var e := log[|log| - 1];
      ReadsFor(log[..|log| - 1], id) + (if e.conn == id && e.act.CardRead? then [e.act.reply] else [])
  }

  function RepliesFor(log: seq<Event>, id: nat): seq<Data> {
    if log == [] then []
    else
      var e := log[|log| - 1];
      RepliesFor(log[..|log| - 1], id) + (if e.conn == id && e.act.ReplySent? then [e.act.cmdReply] else [])
  }

  predicate Apart(x: Conn, y: Conn) {
    x.id != y.id && x.fd != y.fd
  }

  predicate Distinct(conns: seq<Conn>) {
    forall j, k | 0 <= j < k < |conns| :: Apart(conns[j], conns[k])
  }

  predicate ConnInv(conn: Conn, nextId: nat, log: seq<Event>, c: Config) {
    && conn.id < nextId
    && (conn.st == SM.Init ==> forall k | 0 <= k < |log| :: log[k].conn != conn.id)
    && (conn.st == SM.Authorized ==> Admitted(log, conn.id, c))
  }

  ghost predicate LogInv(log: seq<Event>, c: Config) {
    && Gated(log, c) && Truthful(log, c) && AuthOnce(log) && Serialised(log) && OneAtr(log, c.atr)
    && (forall id: nat :: RepliesFor(log, id) == ReadsFor(log, id))
  }

  ghost predicate Inv(s: State, c: Config) {
    && Distinct(s.conns)
    && (forall k | 0 <= k < |s.conns| :: ConnInv(s.conns[k], s.nextId, s.log, c))
    && (forall k | 0 <= k < |s.log| :: s.log[k].conn < s.nextId)
    && LogInv(s.log, c)
  }

  // ---------- Steps keep it ----------

  lemma {:induction false} AppendStreams(log: seq<Event>, e: Event, id: nat)
    ensures ReadsFor(log + [e], id) ==
            ReadsFor(log, id) + (if e.conn == id && e.act.CardRead? then [e.act.reply] else [])
    ensures RepliesFor(log + [e], id) ==
            RepliesFor(log, id) + (if e.conn == id && e.act.ReplySent? then [e.act.cmdReply] else [])
  {
    assert (log + [e])[..|log|] == log;
  }

  lemma AppendSerial(log: seq<Event>, more: seq<Event>)
    requires Serialised(log) && Serialised(more)
    ensures Serialised(log + more)
  {
    var all := log + more;
    forall k | 0 <= k < |all|
      ensures TripleAt(all, k)
    {
      if k < |log| {
        assert TripleAt(log, k);
      } else {
        assert TripleAt(more, k - |log|);
      }
    }
  }

  lemma AppendGated(log: seq<Event>, more: seq<Event>, id: nat, c: Config)
    requires Gated(log, c)
    requires forall e | e in more :: e.conn == id && (Privileged(e.act) ==> Admitted(log, id, c))
    ensures Gated(log + more, c)
  {
    hide ParseAuth;
    var all := log + more;
    forall k | 0 <= k < |all| && Privileged(all[k].act)
      ensures Admitted(all[..k], all[k].conn, c)
    {
      if k < |log| {
        assert all[..k] == log[..k] && all[k] == log[k];
      } else {
        assert all[k] == more[k - |log|] && all[k] in more;
        var j :| 0 <= j < |log| && Admits(log[j], id, c);
        assert all[..k][j] == log[j];
      }
    }
  }

  lemma TagFacts(id: nat, acts: seq<Act>)
    ensures |acts| == 0 ==> Tag(id, acts) == []
    ensures |acts| == 1 ==> Tag(id, acts) == [Event(id, acts[0])]
    ensures |acts| == 3 ==> Tag(id, acts) == [Event(id, acts[0]), Event(id, acts[1]), Event(id, acts[2])]
  {
  }

  lemma TickActs(st: SM.State, o: Observation, c: Config)
    ensures var r := Tick(st, o, c);
            && (st == SM.Closed ==> r.st == SM.Closed && r.acts == [])
            && (st != SM.Init ==> r.st != SM.Init)
            && (|| r.acts == []
                || (st == SM.Init && o.Read? && r.st != SM.Init
                    && r.acts == [AuthReplied(ParseAuth(o.packet, c.user, c.pass), o.packet)]
                    && (r.st == SM.Authorized <==> ParseAuth(o.packet, c.user, c.pass)))
                || (st == SM.Authorized && r.acts == [AtrSent(c.atr)] && r.st == st)
                || (st == SM.Authorized && r.st == st && o.Read? && ParseCmdRequest(o.packet).Some?
                    && r.acts == [CardWrite(ParseCmdRequest(o.packet).value), CardRead(o.reply), ReplySent(o.reply)]))
            && (r.acts == [] ==> r.st == st || r.st == SM.Closed)
  {
    hide GetSize, ParseAuth, Sane;
    var r := Tick(st, o, c);
    if st != SM.Closed && o.Read? {
      var v := SM.Dispatch(st, o.packet, c.user, c.pass);
      if v.RunCommand? {
        assert r.acts == [CardWrite(v.cmd), CardRead(o.reply), ReplySent(o.reply)];
      }
    }
  }

  // A block of acts of one connection, as a tick makes them.
  predicate Block(more: seq<Event>, id: nat, log: seq<Event>, c: Config) {
    || (|more| == 1 && more[0].conn == id && more[0].act.AuthReplied?
        && more[0].act.ok == ParseAuth(more[0].act.request, c.user, c.pass)
        && (forall k | 0 <= k < |log| :: log[k].conn != id))
    || (|more| == 1 && more[0] == Event(id, AtrSent(c.atr)) && Admitted(log, id, c))
    || (|more| == 3 && Admitted(log, id, c)
        && more[0].act.CardWrite? && more[1].act.CardRead? && more[2].act == ReplySent(more[1].act.reply)
        && more[0].conn == more[1].conn == more[2].conn == id)
  }

  lemma TickIsBlock(s: State, k: nat, o: Observation, c: Config)
    requires Inv(s, c) && k < |s.conns|
    ensures var more := Tag(s.conns[k].id, Tick(s.conns[k].st, o, c).acts);
            more == [] || Block(more, s.conns[k].id, s.log, c)
  {
    hide Tick, LogInv, ParseAuth, Admitted;
    TickActs(s.conns[k].st, o, c);
    TagFacts(s.conns[k].id, Tick(s.conns[k].st, o, c).acts);
    assert ConnInv(s.conns[k], s.nextId, s.log, c);
  }

  lemma AppendBlock(log: seq<Event>, more: seq<Event>, id: nat, c: Config)
    requires LogInv(log, c) && Block(more, id, log, c)
    ensures LogInv(log + more, c)
  {
    hide ReadsFor, RepliesFor, ParseAuth, Serialised, Gated, Admitted;
    assert Serialised(more) by { BlockIsSerial(more, id, log, c); }
    AppendSerial(log, more);
    AppendGated(log, more, id, c);
    forall i: nat
      ensures RepliesFor(log + more, i) == ReadsFor(log + more, i)
    {
      StreamsAgree(log, more, i);
    }
  }

  lemma BlockIsSerial(more: seq<Event>, id: nat, log: seq<Event>, c: Config)
    requires Block(more, id, log, c)
    ensures Serialised(more)
  {
    hide ParseAuth, Admitted;
    assert forall j | 0 <= j < |more| :: TripleAt(more, j);
  }

  lemma TickLog(s: State, k: nat, o: Observation, c: Config)
    requires Inv(s, c) && k < |s.conns|
    ensures LogInv(Do(s, TickOne(k, o), c).log, c)
  {
    hide Tick, LogInv, Block, Tag;
    TickIsBlock(s, k, o, c);
    var more := Tag(s.conns[k].id, Tick(s.conns[k].st, o, c).acts);
    if more == [] {
      assert s.log + more == s.log;
    } else {
      AppendBlock(s.log, more, s.conns[k].id, c);
    }
  }

  // A block of acts adds the same to both streams.
  lemma {:induction false} StreamsAgree(log: seq<Event>, more: seq<Event>, id: nat)
    requires RepliesFor(log, id) == ReadsFor(log, id)
    requires || (|more| == 1 && (more[0].act.AuthReplied? || more[0].act.AtrSent?))
             || (|more| == 3 && more[0].act.CardWrite? && more[1].act.CardRead?
                 && more[2].act == ReplySent(more[1].act.reply) && more[1].conn == more[2].conn)
    ensures RepliesFor(log + more, id) == ReadsFor(log + more, id)
  {
    hide ReadsFor, RepliesFor;
    AppendStreams(log, more[0], id);
    if |more| == 1 {
      assert more == [more[0]];
    } else {
      var log1 := log + [more[0]];
      var log2 := log1 + [more[1]];
      AppendStreams(log1, more[1], id);
      AppendStreams(log2, more[2], id);
      assert log + more == log2 + [more[2]];
    }
  }

  lemma TickConns(s: State, k: nat, o: Observation, c: Config)
    requires Inv(s, c) && k < |s.conns|
    ensures var t := Do(s, TickOne(k, o), c);
            && Distinct(t.conns)
            && (forall j | 0 <= j < |t.conns| :: ConnInv(t.conns[j], t.nextId, t.log, c))
            && (forall j | 0 <= j < |t.log| :: t.log[j].conn < t.nextId)
  {
    hide Tick, LogInv;
    var conn := s.conns[k];
    var r := Tick(conn.st, o, c);
    TickActs(conn.st, o, c);
    TagFacts(conn.id, r.acts);
    var more := Tag(conn.id, r.acts);
    var t := Do(s, TickOne(k, o), c);
    forall j | 0 <= j < |t.conns|
      ensures ConnInv(t.conns[j], t.nextId, t.log, c)
    {
      assert ConnInv(s.conns[j], s.nextId, s.log, c);
      if Admitted(s.log, t.conns[j].id, c) {
        var m :| 0 <= m < |s.log| && Admits(s.log[m], t.conns[j].id, c);
        assert Admits(t.log[m], t.conns[j].id, c);
      }
      if j == k && conn.st == SM.Init && r.st == SM.Authorized {
        assert Admits(t.log[|s.log|], conn.id, c);
      }
    }
  }

  lemma {:induction false} KeepDistinct(conns: seq<Conn>, dead: set<Conn>)
    requires Distinct(conns)
    ensures Distinct(Keep(conns, dead))
  {
    if conns != [] {
      var rest := conns[1..];
      assert Distinct(rest);
      KeepDistinct(rest, dead);
      KeepMembers(rest, dead);
      assert forall k | 0 <= k < |rest| :: Apart(conns[0], rest[k]);
      assert forall k | 0 <= k < |Keep(rest, dead)| :: Keep(rest, dead)[k] in rest;
    }
  }

  lemma LiveFacts(conns: seq<Conn>)
    ensures forall k | 0 <= k < |Live(conns)| :: Live(conns)[k] in conns && Live(conns)[k].st != SM.Closed
    ensures Distinct(conns) ==> Distinct(Live(conns))
  {
    KeepMembers(conns, ClosedIn(conns));
    if Distinct(conns) {
      KeepDistinct(conns, ClosedIn(conns));
    }
  }

  lemma StepKeeps(s: State, step: Step, c: Config)
    requires Inv(s, c) && Can(s, step)
    ensures Inv(Do(s, step, c), c)
  {
    match step
    case Accept(fd) => hide LogInv;
    case TickOne(k, o) => hide LogInv, ConnInv, Distinct, Tick, Tag;
      TickLog(s, k, o, c);
      TickConns(s, k, o, c);
    case Sweep => hide LogInv, ConnInv, Live;
      LiveFacts(s.conns);
  }

  // ---------- Whole runs ----------

  lemma {:induction false} RunKeeps(s: State, steps: seq<Step>, c: Config)
    requires Inv(s, c)
    ensures Inv(RunFrom(s, steps, c), c)
  {
    hide Inv, Can, Do;
    if steps != [] {
      var before := steps[..|steps| - 1];
      RunKeeps(s, before, c);
      var t := RunFrom(s, before, c);
      if Can(t, steps[|steps| - 1]) {
        StepKeeps(t, steps[|steps| - 1], c);
      }
    }
  }

  // Whatever any number of peers send, in whatever order their sessions are ticked: nobody reaches
  // the card or the ATR unless parseAuth has accepted a packet on that connection before, each
  // connection is answered its authentication at most once and as parseAuth decided, every exchange
  // with the card is undivided, every ATR sent is the reader's, and the replies on a connection are
  // its own answers in order.
  lemma {:induction false} EveryRun(steps: seq<Step>, c: Config)
    ensures var s := RunFrom(START, steps, c);
            && Gated(s.log, c) && Truthful(s.log, c) && AuthOnce(s.log) && Serialised(s.log) && OneAtr(s.log, c.atr)
            && (forall id: nat :: RepliesFor(s.log, id) == ReadsFor(s.log, id))
            && Distinct(s.conns)
  {
    assert Inv(START, c);
    RunKeeps(START, steps, c);
  }

  // A closed session, or one already swept away.
  predicate Over(s: State, id: nat) {
    id < s.nextId && forall k | 0 <= k < |s.conns| :: s.conns[k].id == id ==> s.conns[k].st == SM.Closed
  }

  // CLOSED is absorbing: nothing is ever again done for such a connection.
  lemma {:induction false} ClosedIsForever(s: State, steps: seq<Step>, c: Config, id: nat)
    requires Over(s, id)
    ensures var t := RunFrom(s, steps, c);
            && Over(t, id) && s.log <= t.log
            && (forall k | |s.log| <= k < |t.log| :: t.log[k].conn != id)
  {
    hide Do, Can;
    if steps != [] {
      var before, step := steps[..|steps| - 1], steps[|steps| - 1];
      ClosedIsForever(s, before, c, id);
      var t := RunFrom(s, before, c);
      if Can(t, step) {
        OverStep(t, step, c, id);
      }
    }
  }

  lemma OverStep(s: State, step: Step, c: Config, id: nat)
    requires Over(s, id) && Can(s, step)
    ensures var t := Do(s, step, c);
            && Over(t, id) && s.log <= t.log
            && (forall k | |s.log| <= k < |t.log| :: t.log[k].conn != id)
  {
    hide Tick, Live;
    match step
    case Accept(fd) =>
    case TickOne(k, o) => TickActs(s.conns[k].st, o, c);
    case Sweep => LiveFacts(s.conns);
  }

  // ---------- One tick of the whole server ----------

  function Accepts(fds: seq<nat>): seq<Step> {
    seq(|fds|, k requires 0 <= k < |fds| => Accept(fds[k]))
  }

  function Ticks(obs: seq<Observation>): seq<Step> {
    seq(|obs|, k requires 0 <= k < |obs| => TickOne(k, obs[k]))
  }

  // PSCProxyServer::tick: accept, tick each session in vector order, sweep.
  function ServerTick(s: State, fds: seq<nat>, obs: seq<Observation>, c: Config): State {
    Do(RunFrom(s, Accepts(fds) + Ticks(obs), c), Sweep, c)
  }

  // What a sweep leaves: every session that is not closed, in the old order, and nothing else.
  ghost predicate Swept(before: seq<Conn>, after: seq<Conn>) {
    && (forall x :: x in after <==> x in before && x.st != SM.Closed)
    && InOrder(after, before)
  }

  lemma SweepLeaves(s: State, c: Config)
    ensures var t := Do(s, Sweep, c); Swept(s.conns, t.conns) && t.log == s.log && t.nextId == s.nextId
  {
    var dead := ClosedIn(s.conns);
    KeepMembers(s.conns, dead);
    KeepInOrder(s.conns, dead);
    forall x | x in s.conns && x.st != SM.Closed
      ensures x in Keep(s.conns, dead)
    {
      var k :| 0 <= k < |s.conns| && s.conns[k] == x;
      assert s.conns[k] !in dead;
    }
  }

  // A connection that is accepted is a new INIT session behind the others, and the first packet on
  // it decides: what parseAuth accepts is answered with yes and authorises it, anything else is
  // answered with no and closes it.
  lemma Welcome(s: State, fd: nat, p: Data, reply: Data, c: Config)
    requires forall k | 0 <= k < |s.conns| :: s.conns[k].fd != fd
    ensures Can(s, Accept(fd))
    ensures var t := Do(s, Accept(fd), c);
            && t == State(s.conns + [Conn(s.nextId, fd, SM.Init)], s.nextId + 1, s.log)
            && Can(t, TickOne(|s.conns|, Read(p, reply)))
            && var ok := ParseAuth(p, c.user, c.pass);
               var st := if ok then SM.Authorized else SM.Closed;
               Do(t, TickOne(|s.conns|, Read(p, reply)), c) ==
                 State(s.conns + [Conn(s.nextId, fd, st)], s.nextId + 1, s.log + [Event(s.nextId, AuthReplied(ok, p))])
  {
    hide ParseAuth;
    var n, conn := |s.conns|, Conn(s.nextId, fd, SM.Init);
    assert (s.conns + [conn])[n] == conn;
    assert forall st :: (s.conns + [conn])[n := conn.(st := st)] == s.conns + [conn.(st := st)];
    TagFacts(s.nextId, [AuthReplied(ParseAuth(p, c.user, c.pass), p)]);
  }

  // What an authorised session does with a command: the card is asked and the answer sent on.
  lemma CommandIsRun(s: State, k: nat, p: Data, reply: Data, c: Config)
    requires k < |s.conns| && s.conns[k].st == SM.Authorized && Sane(p, CmdRequest)
    ensures Can(s, TickOne(k, Read(p, reply)))
    ensures var id := s.conns[k].id;
            Do(s, TickOne(k, Read(p, reply)), c) ==
              s.(log := s.log + [Event(id, CardWrite(p[3..])), Event(id, CardRead(reply)), Event(id, ReplySent(reply))])
  {
    hide GetSize;
    TagFacts(s.conns[k].id, [CardWrite(p[3..]), CardRead(reply), ReplySent(reply)]);
    assert s.conns[k := s.conns[k]] == s.conns;
    assert !Sane(p, ResetRequest);
  }

  // What it does with a reset request: the ATR is sent.
  lemma ResetIsAnswered(s: State, k: nat, p: Data, reply: Data, c: Config)
    requires k < |s.conns| && s.conns[k].st == SM.Authorized && Sane(p, ResetRequest)
    ensures Can(s, TickOne(k, Read(p, reply)))
    ensures Do(s, TickOne(k, Read(p, reply)), c) == s.(log := s.log + [Event(s.conns[k].id, AtrSent(c.atr))])
  {
    hide GetSize;
    TagFacts(s.conns[k].id, [AtrSent(c.atr)]);
    assert s.conns[k := s.conns[k]] == s.conns;
  }

  // After every tick no closed session is left, every other one is, in the old order, and the
  // descriptors left are distinct.
  lemma {:induction false} AfterTick(s: State, fds: seq<nat>, obs: seq<Observation>, c: Config)
    requires Inv(s, c)
    ensures var t := ServerTick(s, fds, obs, c);
            && Inv(t, c)
            && (forall k | 0 <= k < |t.conns| :: t.conns[k].st != SM.Closed)
            && var m := RunFrom(s, Accepts(fds) + Ticks(obs), c);
               Swept(m.conns, t.conns) && t.log == m.log && t.nextId == m.nextId
  {
    hide Inv, Live, Swept;
    SweepLeaves(RunFrom(s, Accepts(fds) + Ticks(obs), c), c);
    var m := RunFrom(s, Accepts(fds) + Ticks(obs), c);
    RunKeeps(s, Accepts(fds) + Ticks(obs), c);
    StepKeeps(m, Sweep, c);
    LiveFacts(m.conns);
  }
}
