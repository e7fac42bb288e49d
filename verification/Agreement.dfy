// The ticks of the client and of the sessions are runs of steps of the composed system, cut at
// their system calls; and a round of the server class is a round of the server model.
module Agreement {
  import opened Bytes
  import opened Protocol
  import opened Framing
  import opened Schedules
  import opened System
  import SM = SessionMachine
  import CM = ClientMachine
  import C = ClientModel
  import S = ServerModel

  // The link and the model describe the same client, between ticks.
  predicate Same(l: Link, c: C.Core) {
    && !l.stranger && l.pc == Ready
    && l.user == c.user && l.pass == c.pass && l.state == c.state && l.cached == c.atr
  }

  // The step a tick begins with, if it does anything to the connection.
  function FirstStep(c: C.Core, i: C.Input): Option<ClientAct> {
    match c.state
    case Init => Some(Authorize)
    case AuthRequested => if i.newData then Some(Look) else None
    case Authorized => Some(RequestAtr)
    case AwaitingAtr => if i.newData then Some(Look) else None
    case Idle =>
      if C.TakesResetBranch(c, i) then Some(EmulatorReset)
      else (match i.data case None => None case Some(cmd) => Some(EmulatorCommand(cmd)))
    case Closed => None
  }

  // What the emulator is handed: an ATR by the reset branch, an answer by the data branch.
  function HandedOn(c: C.Core, i: C.Input): seq<EmuWrite> {
    match C.Tick(c, i).handed
    case None => []
    case Some(data) => [if C.TakesResetBranch(c, i) then Atr(data) else Answer(data)]
  }

  // The link once the bytes that the first step begins to write have all been written.
  function Started(l: Link, a: ClientAct): Link
    requires ClientCan(l, a)
  {
    var m := ClientDo(l, a);
    match m.pc
    case Writing(rest, next) => m.(pc := AfterWrite(next), up := m.up + rest)
    case _ => m
  }

  // A tick begins by writing what the model sends. Then it is done, as the model says, or it waits
  // for the first byte of an answer.
  lemma FirstStepFacts(l: Link, c: C.Core, i: C.Input)
    requires Same(l, c) && i.Valid()
    ensures var o := C.Tick(c, i);
            match FirstStep(c, i)
            case None => Same(l, o.core) && o.took == [] && o.sent == [] && o.handed == None
            case Some(a) =>
              && ClientCan(l, a)
              && var m := Started(l, a);
                 && m.up == l.up + o.sent && m.down == l.down && m.session == l.session && m.out == l.out
                 && (if m.pc == Ready then Same(m, o.core) && o.took == [] && o.handed == None
                     else m.pc.Reading? && !m.stranger && m.pc.got == [] && o.took == i.taken)
  {
    hide PrepareAuth, PrepareResetRequest, CM.RequestFor;
    hide CM.AfterAuthReply, CM.AtrToCache, CM.ResetAnswer, CM.CommandAnswer;
    assert l.up + [] == l.up;
  }

  lemma ClientTickStarts(l: Link, c: C.Core, i: C.Input) returns (acts: seq<ClientAct>)
    requires Same(l, c) && i.Valid()
    ensures var o := C.Tick(c, i);
            match FirstStep(c, i)
            case None => acts == [] && Same(l, o.core) && o.took == [] && o.sent == [] && o.handed == None
            case Some(a) =>
              && ClientCan(l, a) && [a] <= acts && ClientRun(l, acts) == Some(Started(l, a))
              && var m := Started(l, a);
                 && m.up == l.up + o.sent && m.down == l.down && m.session == l.session && m.out == l.out
                 && (if m.pc == Ready then Same(m, o.core) && o.took == [] && o.handed == None
                     else m.pc.Reading? && m.pc.got == [] && o.took == i.taken)
  {
    hide C.Tick, ClientCan, ClientRun, PrepareAuth, PrepareResetRequest, CM.RequestFor;
    FirstStepFacts(l, c, i);
    acts := [];
    if FirstStep(c, i).Some? {
      var a := FirstStep(c, i).value;
      NoClientSteps(l);
      ClientExtend(l, [], l, a);
      acts := [a];
      assert [] + [a] == acts;
      var m := ClientDo(l, a);
      if m.pc.Writing? {
        StillClient(l, a);
        acts := ClientWrites(l, acts, m);
      }
    }
  }

  lemma StillClient(l: Link, a: ClientAct)
    requires ClientCan(l, a)
    ensures !ClientDo(l, a).stranger
  {
  }

  // While the client waits, the server and the network may change the rest of its link.
  predicate SameClient(l: Link, m: Link) {
    && l.user == m.user && l.pass == m.pass && l.stranger == m.stranger
    && l.state == m.state && l.pc == m.pc && l.cached == m.cached
    && l.asked == m.asked && l.out == m.out
  }

  // The rest of a tick once its read has taken its last byte.
  lemma ClientReadEnds(l: Link, c: C.Core, i: C.Input, m: Link)
    requires Same(l, c) && i.Valid() && FirstStep(c, i).Some? && ClientCan(l, FirstStep(c, i).value)
    requires var n := Started(l, FirstStep(c, i).value);
             n.pc.Reading? && SameClient(m, n.(pc := Reading(i.taken, n.pc.purpose)))
    ensures var a := if IsPacket(i.taken) then Finish else GiveUp;
            && ClientCan(m, a)
            && var n := ClientDo(m, a);
               && Same(n, C.Tick(c, i).core)
               && n.out == m.out + HandedOn(c, i)
               && n.up == m.up && n.down == m.down && n.session == m.session && n.asked == m.asked
  {
    hide PrepareAuth, PrepareResetRequest, CM.RequestFor, GetSize, Need, IsPacket, ResultOf;
    hide CM.AfterAuthReply, CM.AtrToCache, CM.ResetAnswer, CM.CommandAnswer;
    EndOfRead(m, i.taken);
    assert m.out + [] == m.out;
  }

  lemma EndOfRead(m: Link, taken: Data)
    requires m.pc.Reading? && m.pc.got == taken && |taken| <= Need(taken) && !m.stranger
    ensures var a := if IsPacket(taken) then Finish else GiveUp;
            ClientCan(m, a) && ClientDo(m, a) == Resume(m, m.pc.purpose, ResultOf(taken))
  {
    hide GetSize, Need, Resume;
  }

  // When the bytes that the tick's read will take are at the front of the queue, whatever has become
  // of the rest of the link since the tick began, there are enabled steps that take exactly those
  // bytes and leave the client as the model's tick leaves it.
  lemma ClientTickEnds(l: Link, c: C.Core, i: C.Input, m: Link, rest: Data) returns (acts: seq<ClientAct>)
    requires Same(l, c) && i.Valid() && FirstStep(c, i).Some? && ClientCan(l, FirstStep(c, i).value)
    requires var n := Started(l, FirstStep(c, i).value); n.pc.Reading? && SameClient(m, n)
    requires m.down == i.taken + rest
    ensures ClientRun(m, acts).Some?
    ensures var n := ClientRun(m, acts).value;
            && Same(n, C.Tick(c, i).core)
            && n.out == m.out + HandedOn(c, i) && n.down == rest
            && n.up == m.up && n.session == m.session && n.asked == m.asked
  {
    hide ClientDo, ClientCan, C.Tick, Need, ClientRun, Started;
    FirstStepFacts(l, c, i);
    NoClientSteps(m);
    assert m.pc.got + i.taken == i.taken;
    acts := ClientArrives(m, [], m, i.taken, rest);
    var n := m.(pc := Reading(i.taken, m.pc.purpose), down := rest);
    ClientReadEnds(l, c, i, n);
    ClientExtend(m, acts, n, if IsPacket(i.taken) then Finish else GiveUp);
    acts := acts + [if IsPacket(i.taken) then Finish else GiveUp];
  }

  // The reader's operations, tagged with the connection.
  function Tagged(acts: seq<S.Act>, conn: nat): seq<CardOp>
    requires forall a | a in acts :: S.AtCard(a)
  {
    seq(|acts|, k requires 0 <= k < |acts| =>
      assert acts[k] in acts && S.AtCard(acts[k]);
      if acts[k].CardWrite? then CardWrite(conn, acts[k].cmd) else CardRead(conn, acts[k].reply))
  }

  // What a packet makes the server do: one step, or two if the card is asked, and then the writing
  // of what the model sends.
  lemma PacketIsSteps(l: Link, conn: nat, p: Data, reply: Data, c: Config)
    requires l.session.On? && l.session.st != SM.Closed && |reply| <= MAX_PAYLOAD
    ensures var r := S.Tick(l.session.st, S.Read(p, reply), c);
            var e := OnPacket(l, conn, p, c);
            var m := l.(session := On(r.st));
            && (forall a | a in S.CardActs(r.acts) :: S.AtCard(a))
            && var ops := Tagged(S.CardActs(r.acts), conn);
               match e.view
               case Off => e == ServerEffect(m, Off, []) && S.Wires(r.acts) == [] && ops == []
               case Replying(rest) => e == ServerEffect(m, Replying(S.Wires(r.acts)), []) && ops == []
               case AtCard(cmd) =>
                 && e == ServerEffect(m, AtCard(cmd), [CardWrite(conn, cmd)])
                 && S.Wires(r.acts) == PrepareCmdReply(reply)
                 && ops == [CardWrite(conn, cmd), CardRead(conn, reply)]
               case Taking(_) => false
  {
    hide Frame, ParseAuth, Sane, S.Wires, S.CardActs;
    var v := SM.Dispatch(l.session.st, p, c.user, c.pass);
    S.NoActs();
    S.WiresOfOne(S.AuthReplied(true, p));
    S.WiresOfOne(S.AuthReplied(false, p));
    S.WiresOfOne(S.AtrSent(c.atr));
    if v.RunCommand? {
      S.WiresOfCommand(v.cmd, reply);
    }
  }

  // When the bytes a session's tick takes are at the front of the queue, there are enabled server
  // steps that take exactly those bytes and do what the model's tick does: nothing, give up a read
  // half-way, or read a packet, deal with it and write the answer.
  lemma SessionTickIsSteps(l: Link, conn: nat, o: S.Observation, rest: Data, c: Config) returns (acts: seq<ServerAct>)
    requires l.session.On? && o.Valid() && (l.session.st == SM.Closed ==> o.NothingNew?)
    requires o.Read? ==> |o.reply| <= MAX_PAYLOAD
    requires l.up == o.Took() + rest
    ensures var r := S.Tick(l.session.st, o, c);
            && (forall a | a in S.CardActs(r.acts) :: S.AtCard(a))
            && ServerRun(l, conn, Off, acts, c) ==
               Some(ServerEffect(l.(session := On(r.st), up := rest, down := l.down + S.Wires(r.acts)), Off,
                                 Tagged(S.CardActs(r.acts), conn)))
  {
    hide S.Wires, S.CardActs, ServerRun, SM.Dispatch, Need;
    S.NoActs();
    NoServerSteps(l, conn, Off, c);
    var none: seq<CardOp> := [];
    if o.NothingNew? {
      acts := [];
      assert l.up == rest && l.down + [] == l.down;
      assert l.(session := On(l.session.st), up := rest, down := l.down + []) == l;
      assert Tagged([], conn) == [];
    } else {
      ServerExtend(l, conn, Off, [], ServerEffect(l, Off, []), Begin, c);
      assert [] + [Begin] == [Begin] && none + none == none && [] + o.Took() == o.Took();
      acts := ServerArrives(l, conn, Off, [Begin], ServerEffect(l, Taking([]), []), o.Took(), rest, c);
      var m := l.(up := rest);
      if o.ReadFailed? {
        ServerExtend(l, conn, Off, acts, ServerEffect(m, Taking(o.taken), []), Abandon, c);
        acts := acts + [Abandon];
        assert m.down + [] == m.down && Tagged([], conn) == [];
      } else {
        acts := DealsWith(l, conn, acts, m, o.packet, o.reply, c);
      }
    }
  }

  // The part of the tick that follows the read.
  lemma DealsWith(l: Link, conn: nat, before: seq<ServerAct>, m: Link, p: Data, reply: Data, c: Config)
    returns (acts: seq<ServerAct>)
    requires ServerRun(l, conn, Off, before, c) == Some(ServerEffect(m, Taking(p), []))
    requires IsPacket(p) && m.session.On? && m.session.st != SM.Closed && |reply| <= MAX_PAYLOAD
    ensures var r := S.Tick(m.session.st, S.Read(p, reply), c);
            && (forall a | a in S.CardActs(r.acts) :: S.AtCard(a))
            && ServerRun(l, conn, Off, acts, c) ==
               Some(ServerEffect(m.(session := On(r.st), down := m.down + S.Wires(r.acts)), Off,
                                 Tagged(S.CardActs(r.acts), conn)))
  {
    hide S.Wires, S.CardActs, S.Tick, ServerRun, OnPacket, PrepareCmdReply, IsPacket;
    var r := S.Tick(m.session.st, S.Read(p, reply), c);
    var e, k := OnPacket(m, conn, p, c), m.(session := On(r.st));
    PacketIsSteps(m, conn, p, reply, c);
    var none: seq<CardOp> := [];
    assert none + e.ops == e.ops;
    ServerExtend(l, conn, Off, before, ServerEffect(m, Taking(p), []), Handle, c);
    acts := before + [Handle];
    if e.view.AtCard? {
      ServerExtend(l, conn, Off, acts, e, CardAnswers(reply), c);
      acts := acts + [CardAnswers(reply)];
      var ops := [CardWrite(conn, e.view.cmd), CardRead(conn, reply)];
      assert [CardWrite(conn, e.view.cmd)] + [CardRead(conn, reply)] == ops;
      e := ServerEffect(k, Replying(S.Wires(r.acts)), ops);
    }
    if e.view.Replying? {
      acts := ServerWrites(l, conn, Off, acts, e, c);
    } else {
      assert k.down + [] == k.down;
    }
  }
}

module ServerRounds {
  import opened ServerModel
  import opened ServerRuns
  import SM = SessionMachine

  // The events of one round of ticks, session by session.
  function RoundLog(conns: seq<Conn>, obs: seq<Observation>, c: Config): seq<Event>
    requires |obs| <= |conns|
  {
    if obs == [] then []
    else
      var n := |obs| - 1;
      RoundLog(conns, obs[..n], c) + Tag(conns[n].id, Tick(conns[n].st, obs[n], c).acts)
  }

  function States(conns: seq<Conn>): seq<SM.State> {
    seq(|conns|, k requires 0 <= k < |conns| => conns[k].st)
  }

  // The server model's round ticks each session once with its own observation, in vector order.
  lemma {:induction false} RoundIsTicks(s: State, obs: seq<Observation>, c: Config)
    requires |obs| <= |s.conns|
    ensures var t := RunFrom(s, Ticks(obs), c);
            && |t.conns| == |s.conns| && t.nextId == s.nextId
            && t.log == s.log + RoundLog(s.conns, obs, c)
            && (forall k | 0 <= k < |s.conns| ::
                  t.conns[k] == if k < |obs| then s.conns[k].(st := Tick(s.conns[k].st, obs[k], c).st) else s.conns[k])
  {
    hide Tick;
    if obs == [] {
      assert s.log + [] == s.log;
    } else {
      var n := |obs| - 1;
      assert Ticks(obs)[..n] == Ticks(obs[..n]);
      RoundIsTicks(s, obs[..n], c);
      var t := RunFrom(s, Ticks(obs[..n]), c);
      assert t.conns[n] == s.conns[n];
      var more := Tag(s.conns[n].id, Tick(s.conns[n].st, obs[n], c).acts);
      assert s.log + RoundLog(s.conns, obs[..n], c) + more == s.log + (RoundLog(s.conns, obs[..n], c) + more);
    }
  }

  function CardEvents(log: seq<Event>): seq<Act> {
    if log == [] then []
    else CardEvents(log[..|log| - 1]) + (if AtCard(log[|log| - 1].act) then [log[|log| - 1].act] else [])
  }

  lemma {:induction false} CardEventsAppend(log: seq<Event>, id: nat, acts: seq<Act>)
    ensures CardEvents(log + Tag(id, acts)) == CardEvents(log) + CardActs(acts)
  {
    if acts == [] {
      assert log + Tag(id, acts) == log;
    } else {
      var n := |acts| - 1;
      CardEventsAppend(log, id, acts[..n]);
      assert Tag(id, acts)[..n] == Tag(id, acts[..n]);
      assert (log + Tag(id, acts))[..|log| + n] == log + Tag(id, acts[..n]);
    }
  }

  // What a round of the server class does to the reader is the card's part of the model's log.
  lemma {:induction false} RoundAtCard(conns: seq<Conn>, obs: seq<Observation>, c: Config)
    requires |obs| <= |conns|
    ensures CardEvents(RoundLog(conns, obs, c)) == CardLog(States(conns)[..|obs|], obs, c)
  {
    hide Tick, CardActs;
    if obs != [] {
      var n := |obs| - 1;
      RoundAtCard(conns, obs[..n], c);
      CardEventsAppend(RoundLog(conns, obs[..n], c), conns[n].id, Tick(conns[n].st, obs[n], c).acts);
      assert States(conns)[..|obs|][..n] == States(conns)[..n];
      assert States(conns)[..|obs|][n] == conns[n].st;
    }
  }

  // ---------- One tick of the whole server ----------

  lemma {:induction false} OneAfterTheOther(s: State, a: seq<Step>, b: seq<Step>, c: Config)
    ensures RunFrom(s, a + b, c) == RunFrom(RunFrom(s, a, c), b, c)
  {
    hide Can, Do;
    if b == [] {
      assert a + b == a;
    } else {
      OneAfterTheOther(s, a, b[..|b| - 1], c);
      assert (a + b)[..|a + b| - 1] == a + b[..|b| - 1];
    }
  }

  function New(id: nat, fds: seq<nat>): seq<Conn> {
    seq(|fds|, k requires 0 <= k < |fds| => Conn(id + k, fds[k], SM.Init))
  }

  predicate FreshFor(fds: seq<nat>, conns: seq<Conn>) {
    && (forall j, k | 0 <= j < k < |fds| :: fds[j] != fds[k])
    && (forall j, k | 0 <= j < |conns| && 0 <= k < |fds| :: conns[j].fd != fds[k])
  }

  lemma {:induction false} AllAccepted(s: State, fds: seq<nat>, c: Config)
    requires FreshFor(fds, s.conns)
    ensures RunFrom(s, Accepts(fds), c) == State(s.conns + New(s.nextId, fds), s.nextId + |fds|, s.log)
  {
    if fds == [] {
      assert s.conns + New(s.nextId, fds) == s.conns;
    } else {
      var init, n := fds[..|fds| - 1], |fds| - 1;
      assert Accepts(fds)[..n] == Accepts(init);
      AllAccepted(s, init, c);
      var t := RunFrom(s, Accepts(init), c);
      assert forall k | 0 <= k < |t.conns| ::
          t.conns[k].fd == if k < |s.conns| then s.conns[k].fd else fds[k - |s.conns|];
      assert s.conns + New(s.nextId, fds) == s.conns + New(s.nextId, init) + [Conn(s.nextId + n, fds[n], SM.Init)];
    }
  }

  // One tick of the server: the connections waiting become INIT sessions behind the old ones, each
  // session is ticked once with its own observation, in vector order, and every session that is then
  // not closed is left, in the same order, and nothing else.
  lemma {:induction false} ServerTickIs(s: State, fds: seq<nat>, obs: seq<Observation>, c: Config)
    requires FreshFor(fds, s.conns) && |obs| == |s.conns| + |fds|
    ensures var all := s.conns + seq(|fds|, k requires 0 <= k < |fds| => Conn(s.nextId + k, fds[k], SM.Init));
            var after := seq(|all|, k requires 0 <= k < |all| => all[k].(st := Tick(all[k].st, obs[k], c).st));
            var t := ServerTick(s, fds, obs, c);
            && Swept(after, t.conns) && t.nextId == s.nextId + |fds|
            && t.log == s.log + RoundLog(all, obs, c)
  {
    hide Tick, Swept;
    var all := s.conns + seq(|fds|, k requires 0 <= k < |fds| => Conn(s.nextId + k, fds[k], SM.Init));
    var after := seq(|all|, k requires 0 <= k < |all| => all[k].(st := Tick(all[k].st, obs[k], c).st));
    assert all == s.conns + New(s.nextId, fds);
    AllAccepted(s, fds, c);
    OneAfterTheOther(s, Accepts(fds), Ticks(obs), c);
    RoundIsTicks(RunFrom(s, Accepts(fds), c), obs, c);
    var m := RunFrom(s, Accepts(fds) + Ticks(obs), c);
    assert m.conns == after;
    SweepLeaves(m, c);
  }
}
