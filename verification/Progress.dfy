// The safety results are not about an empty set of runs: from any reachable state a connection can
// come to rest if and only if it is not lost, and from rest any exchange can go through.
module Progress {
  import opened Bytes
  import opened Protocol
  import opened Framing
  import opened LockStep
  import opened Reachable
  import opened Schedules
  import opened System
  import A = Agreement
  import CM = ClientMachine
  import G = Guarantees
  import S = ServerModel
  import SM = SessionMachine

  // An idle client of a free server, with nothing in transit.
  predicate AtRest(s: State, i: nat) {
    && i < |s.links| && s.pc == Free
    && var l := s.links[i];
       && !l.stranger && l.state == CM.Idle && l.pc == Ready && l.up == [] && l.down == []
       && l.session == On(SM.Authorized)
  }

  // A client's connection that is not lost: neither end has closed, the credentials are right, and
  // the client is not busy with a lone zero byte.
  predicate Live(l: Link, c: Config) {
    && !l.stranger && l.state != CM.Closed && !Dead(l) && Match(l, c)
    && G.Pending(l) != Some([0])
  }

  // ... and the server is not busy with another one.
  predicate Attended(s: State, i: nat, c: Config) {
    i < |s.links| && Live(s.links[i], c) && (s.pc.Busy? ==> s.pc.conn == i)
  }

  // No write is under way on this connection.
  predicate Calm(s: State, i: nat)
    requires i < |s.links|
  {
    !s.links[i].pc.Writing? && !ViewOf(s, i).Replying?
  }

  // ---------- The server becomes free for one connection ----------

  // The server can be done with any connection.
  lemma Releases(l: Link, conn: nat, v: View, c: Config) returns (acts: seq<ServerAct>, m: Link, ops: seq<CardOp>)
    requires ViewFits(l, v)
    ensures ServerRun(l, conn, v, acts, c) == Some(ServerEffect(m, Off, ops))
  {
    hide ServerRun, Need, OnPacket, PrepareCmdReply;
    acts := [];
    var e := ServerEffect(l, v, []);
    NoServerSteps(l, conn, v, c);
    if v.Taking? {
      var a := if |v.got| < Need(v.got) then Abandon else Handle;
      AfterTaking(l, conn, v, c);
      ServerExtend(l, conn, v, acts, e, a, c);
      acts := acts + [a];
      var f := ServerDo(l, conn, v, a, c);
      e := f.(ops := e.ops + f.ops);
    }
    if e.view.AtCard? {
      ServerExtend(l, conn, v, acts, e, CardAnswers([]), c);
      acts := acts + [CardAnswers([])];
      var f := ServerDo(e.link, conn, e.view, CardAnswers([]), c);
      e := f.(ops := e.ops + f.ops);
    }
    if e.view.Replying? {
      acts := ServerWrites(l, conn, v, acts, e, c);
      e := ServerEffect(e.link.(down := e.link.down + e.view.rest), Off, e.ops);
    }
    m, ops := e.link, e.ops;
  }

  lemma AfterTaking(l: Link, conn: nat, v: View, c: Config)
    requires v.Taking? && ViewFits(l, v)
    ensures var a := if |v.got| < Need(v.got) then Abandon else Handle;
            ServerCan(l, v, a) && !ServerDo(l, conn, v, a, c).view.Taking?
  {
    hide SM.Dispatch, Need;
  }

  lemma {:induction false} ViewOfBusy(steps: seq<Step>, c: Config)
    requires c.Valid() && Run(steps, c).pc.Busy?
    ensures var s := Run(steps, c); s.pc.conn < |s.links| && ViewFits(s.links[s.pc.conn], s.pc.view) && s.pc.view != Off
  {
    hide Run, Fine;
    RunKeeps(steps, c);
    var s := Run(steps, c);
    assert ConnInv(s.links[s.pc.conn], ViewOf(s, s.pc.conn), History(s, s.pc.conn), c);
  }

  lemma {:induction false} FreeFromOthers(steps: seq<Step>, c: Config, i: nat) returns (more: seq<Step>)
    requires c.Valid() && i < |Run(steps, c).links|
    ensures steps <= more
    ensures var s, t := Run(steps, c), Run(more, c);
            i < |t.links| && t.links[i] == s.links[i] && (t.pc.Busy? ==> t.pc.conn == i)
  {
    hide Run, ViewFits;
    var s := Run(steps, c);
    more := steps;
    if s.pc.Busy? && s.pc.conn != i {
      ViewOfBusy(steps, c);
      var acts, m, ops := Releases(s.links[s.pc.conn], s.pc.conn, s.pc.view, c);
      more := ServerInSystem(steps, c, s.pc.conn, acts, ServerEffect(m, Off, ops));
    }
  }

  // ---------- Writes come to an end ----------

  lemma {:induction false} EndWrites(steps: seq<Step>, c: Config, i: nat) returns (more: seq<Step>)
    requires c.Valid() && Attended(Run(steps, c), i, c)
    ensures steps <= more
    ensures var s, t := Run(steps, c), Run(more, c);
            && Attended(t, i, c) && Calm(t, i)
            && t.links[i].asked == s.links[i].asked && t.links[i].out == s.links[i].out
            && Skeleton(t.links[i]) == Skeleton(s.links[i])
            && WireOf(t.links[i], ViewOf(t, i)) == WireOf(s.links[i], ViewOf(s, i))
            && (s.pc == Free ==> t.pc == Free)
  {
    hide Run, Live, WireOf, Skeleton;
    more := steps;
    var l := Run(more, c).links[i];
    LiveMeans(l, c);
    if l.pc.Writing? {
      NoClientSteps(l);
      var acts := ClientWrites(l, [], l);
      var m := l.(pc := AfterWrite(l.pc.next), up := l.up + l.pc.rest);
      WrittenUp(l, m, ViewOf(Run(steps, c), i));
      SameLife(l, m, c);
      more := ClientInSystem(more, c, i, acts, m);
    }
    var t := Run(more, c);
    l := t.links[i];
    var v := ViewOf(t, i);
    if v.Replying? {
      NoServerSteps(l, i, v, c);
      var acts := ServerWrites(l, i, v, [], ServerEffect(l, v, []), c);
      var m := l.(down := l.down + v.rest);
      WrittenDown(l, v, m);
      SameLife(l, m, c);
      more := ServerInSystem(more, c, i, acts, ServerEffect(m, Off, []));
    }
  }

  lemma LiveMeans(l: Link, c: Config)
    requires Live(l, c)
    ensures !l.stranger && l.state != CM.Closed && !Dead(l) && Match(l, c)
  {
  }

  lemma SameLife(l: Link, m: Link, c: Config)
    requires Live(l, c) && Skeleton(m) == Skeleton(l)
    ensures Live(m, c)
  {
    assert Settle(m.pc) == Skeleton(m).pc && Settle(l.pc) == Skeleton(l).pc;
    assert m.session == Skeleton(m).session && m.state == Skeleton(m).state && m.stranger == Skeleton(m).stranger;
    assert m.user == Skeleton(m).user && m.pass == Skeleton(m).pass;
  }

  lemma WrittenUp(l: Link, m: Link, v: View)
    requires l.pc.Writing? && m == l.(pc := AfterWrite(l.pc.next), up := l.up + l.pc.rest)
    ensures Skeleton(m) == Skeleton(l) && WireOf(m, v) == WireOf(l, v) && !m.pc.Writing?
  {
    assert Up(m, v) == Up(l, v);
  }

  lemma WrittenDown(l: Link, v: View, m: Link)
    requires v.Replying? && m == l.(down := l.down + v.rest)
    ensures Skeleton(m) == Skeleton(l) && WireOf(m, Off) == WireOf(l, v)
  {
    assert Down(m, Off) == Down(l, v);
  }

  // ---------- A pending request is answered ----------

  // The connection is live and calm, the client is as it was, and there is something for it to read.
  predicate Replied(s: State, t: State, i: nat, c: Config)
    requires i < |s.links|
  {
    && Attended(t, i, c) && Calm(t, i) && |t.links| == |s.links|
    && A.SameClient(s.links[i], t.links[i])
    && Down(t.links[i], ViewOf(t, i)) != []
  }

  lemma SettledRequest(l: Link)
    ensures G.RequestBytes(Skeleton(l)) == G.RequestBytes(l)
  {
  }

  lemma {:induction false} ChannelHere(steps: seq<Step>, c: Config, i: nat)
    requires c.Valid() && Attended(Run(steps, c), i, c)
    ensures Serial(Run(steps, c).ops)
    ensures var s := Run(steps, c);
            var l, v, mine := s.links[i], ViewOf(s, i), History(s, i);
            && Fine(Skeleton(l), WireOf(l, v), mine, c) && ViewFits(l, v)
            && G.Channel(Skeleton(l), WireOf(l, v), c) && G.RequestBytes(Skeleton(l)) == G.RequestBytes(l)
            && (s.pc.Busy? ==> s.pc.view != Off)
  {
    hide Run, Fine, WireOf, Serial, G.Channel, G.RequestBytes, ViewFits;
    G.LinkOf(steps, c, i);
    var s := Run(steps, c);
    var l, v, mine := s.links[i], ViewOf(s, i), History(s, i);
    SettledRequest(l);
    G.ChannelOf(Skeleton(l), WireOf(l, v), mine, c);
  }

  lemma RequestFits(l: Link, w: Wire, mine: seq<Exchange>, c: Config)
    requires Fine(l, w, mine, c)
    ensures GoodCredentials(l.user, l.pass)
    ensures l.state == CM.Idle && G.Pending(l).Some? ==> |G.Pending(l).value| <= MAX_PAYLOAD
  {
  }

  // The verdict on a live client's request, and what the server does about it.
  lemma RequestServed(l: Link, conn: nat, v: View, mine: seq<Exchange>, c: Config)
    requires c.Valid() && Live(l, c) && Fine(Skeleton(l), WireOf(l, v), mine, c) && ViewFits(l, v)
    requires v == Taking(G.RequestBytes(l)) && v.got != [] && l.up == [] && !l.pc.Writing?
    ensures ServerCan(l, v, Handle)
    ensures var e := ServerDo(l, conn, v, Handle, c);
            && Live(e.link, c) && A.SameClient(l, e.link) && e.link.up == [] && e.link.down == l.down
            && (e.view.AtCard? || (e.view.Replying? && e.view.rest != []))
  {
    hide PrepareAuth, PrepareAuthReply, PrepareResetRequest, PrepareResetReply, PrepareCmdRequest, PrepareCmdReply;
    hide Fine, IsPacket, SM.Dispatch;
    var k, w := Skeleton(l), WireOf(l, v);
    RequestFits(k, w, mine, c);
    SettledRequest(l);
    G.ChannelOf(k, w, mine, c);
    G.RequestIsPacket(k, w, mine, c);
    assert w.up == v.got;
    DispatchAuth(l, c);
    DispatchRequest(if l.state == CM.Idle && G.Pending(l).Some? then G.Pending(l).value else [], c);
    G.RepliesNotEmpty(true, c.atr);
  }

  // The server takes what it has not yet taken of a request that is on its way up.
  lemma {:induction false} TakesRequest(steps: seq<Step>, c: Config, i: nat) returns (more: seq<Step>)
    requires c.Valid() && Attended(Run(steps, c), i, c) && Calm(Run(steps, c), i)
    requires var s := Run(steps, c); s.links[i].session.On? && Up(s.links[i], ViewOf(s, i)) != []
    ensures steps <= more
    ensures var s := Run(steps, c);
            var l := s.links[i];
            && G.RequestBytes(l) != []
            && Run(more, c) == State(s.links[i := l.(up := [])], Busy(i, Taking(G.RequestBytes(l))), s.ops)
  {
    hide Run, Fine, Need, ServerRun, IsPacket, G.RequestBytes;
    var s := Run(steps, c);
    var l, v := s.links[i], ViewOf(s, i);
    ChannelHere(steps, c, i);
    G.RequestIsPacket(Skeleton(l), WireOf(l, v), History(s, i), c);
    var p := G.RequestBytes(l);
    var acts: seq<ServerAct>, e := [], ServerEffect(l, v, []);
    NoServerSteps(l, i, v, c);
    if v == Off {
      ServerExtend(l, i, v, acts, e, Begin, c);
      acts, e := acts + [Begin], ServerEffect(l, Taking([]), e.ops + []);
    }
    assert e.view.got + l.up == p;
    assert l.up == l.up + [];
    PacketFits(p);
    acts := ServerArrives(l, i, v, acts, e, l.up, [], c);
    assert s.ops + e.ops == s.ops;
    more := ServerInSystem(steps, c, i, acts, ServerEffect(l.(up := []), Taking(p), e.ops));
  }

  lemma PacketFits(p: Data)
    requires IsPacket(p)
    ensures |p| <= Need(p)
  {
  }

  lemma SameRequest(l: Link, m: Link)
    requires A.SameClient(l, m)
    ensures G.RequestBytes(l) == G.RequestBytes(m)
  {
  }

  // Such a request is answered: the server deals with it, asks the card if it has to, and writes.
  lemma {:induction false} Serve(steps: seq<Step>, c: Config, i: nat) returns (more: seq<Step>)
    requires c.Valid() && Attended(Run(steps, c), i, c) && Calm(Run(steps, c), i)
    requires var s := Run(steps, c); s.links[i].session.On? && Up(s.links[i], ViewOf(s, i)) != []
    ensures steps <= more
    ensures Replied(Run(steps, c), Run(more, c), i, c) && Run(more, c).pc == Free
  {
    hide Run, Fine, Need, OnPacket, IsPacket, G.RequestBytes, G.Channel, PrepareCmdReply, Live;
    more := TakesRequest(steps, c, i);
    var l, t := Run(steps, c).links[i], Run(more, c);
    var m, p := l.(up := []), G.RequestBytes(l);
    assert Skeleton(m) == Skeleton(l);
    SameLife(l, m, c);
    SameRequest(l, m);
    ChannelHere(more, c, i);
    RequestServed(m, i, Taking(p), History(t, i), c);
    Extend(more, Server(i, Handle), c);
    more := more + [Server(i, Handle)];
    var f := ServerDo(m, i, Taking(p), Handle, c);
    if f.view.AtCard? {
      Extend(more, Server(i, CardAnswers([])), c);
      more := more + [Server(i, CardAnswers([]))];
      G.RepliesNotEmpty(true, []);
    }
    t := Run(more, c);
    var v, n := ViewOf(t, i), t.links[i];
    NoServerSteps(n, i, v, c);
    var acts := ServerWrites(n, i, v, [], ServerEffect(n, v, []), c);
    var after := n.(down := n.down + v.rest);
    assert Skeleton(after) == Skeleton(n);
    SameLife(n, after, c);
    more := ServerInSystem(more, c, i, acts, ServerEffect(after, Off, []));
  }

  // A client's pending request, wherever it is, gets answered.
  lemma {:induction false} GetsReply(steps: seq<Step>, c: Config, i: nat) returns (more: seq<Step>)
    requires c.Valid() && Attended(Run(steps, c), i, c) && Calm(Run(steps, c), i)
    requires G.RequestBytes(Run(steps, c).links[i]) != []
    ensures steps <= more
    ensures Replied(Run(steps, c), Run(more, c), i, c)
    ensures var s := Run(steps, c); Down(s.links[i], ViewOf(s, i)) == [] ==> Run(more, c).pc == Free
  {
    hide Run, Fine, Need, IsPacket, G.RequestBytes, PrepareCmdReply, Live;
    var s := Run(steps, c);
    var l, v := s.links[i], ViewOf(s, i);
    ChannelHere(steps, c, i);
    more := steps;
    if Down(l, v) != [] {
    } else if v.AtCard? {
      var acts, m := AnswersFromCard(l, i, v, c);
      SameLife(l, m, c);
      more := ServerInSystem(steps, c, i, acts, ServerEffect(m, Off, [CardRead(i, [])]));
    } else {
      if l.session == Waiting {
        Extend(steps, Server(i, AcceptConn), c);
        more := steps + [Server(i, AcceptConn)];
        Accepted(l, c);
      }
      LiveMeans(l, c);
      more := Serve(more, c, i);
    }
  }

  lemma Accepted(l: Link, c: Config)
    requires Live(l, c) && l.session == Waiting
    ensures Live(l.(session := On(SM.Init)), c)
  {
  }

  lemma AnswersFromCard(l: Link, conn: nat, v: View, c: Config) returns (acts: seq<ServerAct>, m: Link)
    requires v.AtCard?
    ensures ServerRun(l, conn, v, acts, c) == Some(ServerEffect(m, Off, [CardRead(conn, [])]))
    ensures Skeleton(m) == Skeleton(l) && m.up == l.up && A.SameClient(l, m) && Down(m, Off) != []
  {
    hide ServerRun, PrepareCmdReply;
    NoServerSteps(l, conn, v, c);
    ServerExtend(l, conn, v, [], ServerEffect(l, v, []), CardAnswers([]), c);
    acts := [CardAnswers([])];
    assert [] + acts == acts && [] + [CardRead(conn, [])] == [CardRead(conn, [])];
    acts := ServerWrites(l, conn, v, acts, ServerEffect(l, Replying(PrepareCmdReply([])), [CardRead(conn, [])]), c);
    m := l.(down := l.down + PrepareCmdReply([]));
    G.RepliesNotEmpty(true, []);
  }

  // ---------- The client takes the reply ----------

  // What the reply of the awaited type makes of a live client.
  function Next(st: CM.State): CM.State {
    match st
    case AuthRequested => CM.Authorized
    case AwaitingAtr => CM.Idle
    case _ => st
  }

  lemma {:induction false} TakeReply(steps: seq<Step>, c: Config, i: nat) returns (more: seq<Step>)
    requires c.Valid() && Attended(Run(steps, c), i, c) && Calm(Run(steps, c), i)
    requires var s := Run(steps, c); Down(s.links[i], ViewOf(s, i)) != []
    ensures steps <= more
    ensures var s, t := Run(steps, c), Run(more, c);
            && Attended(t, i, c) && t.pc == s.pc && |t.links| == |s.links|
            && t.links[i].pc == Ready && t.links[i].state == Next(s.links[i].state)
            && (s.links[i].pc.Reading? && s.links[i].pc.purpose == ForReset ==>
                  t.links[i].out == s.links[i].out + [Atr(c.atr)])
  {
    hide Run, Fine, Need, IsPacket, ClientRun, G.RequestBytes, G.ReplyType, G.Channel, Delivered, Live, Resume;
    var s := Run(steps, c);
    var l, v := s.links[i], ViewOf(s, i);
    ChannelHere(steps, c, i);
    assert Skeleton(Skeleton(l)) == Skeleton(l);
    SameLife(l, Skeleton(l), c);
    Awaiting(Skeleton(l), WireOf(l, v), History(s, i), c);
    var acts: seq<ClientAct>, m := [], l;
    NoClientSteps(l);
    LiveMeans(l, c);
    if l.pc == Ready {
      ClientExtend(l, acts, m, Look);
      acts, m := acts + [Look], ClientDo(l, Look);
    }
    assert m.pc.got + m.down == Down(l, v) && m.down == m.down + [];
    PacketFits(Down(l, v));
    acts := ClientArrives(l, acts, m, m.down, []);
    var n := m.(pc := Reading(Down(l, v), m.pc.purpose), down := []);
    more := ClientInSystem(steps, c, i, acts, n);
    var t := Run(more, c);
    G.LinkOf(more, c, i);
    FinishOutcome(n, ViewOf(t, i), History(t, i), c);
    LivesOn(l, n, History(t, i), c);
    Extend(more, Client(i, Finish), c);
    more := more + [Client(i, Finish)];
  }

  lemma LivesOn(l: Link, n: Link, mine: seq<Exchange>, c: Config)
    requires Live(l, c) && n.pc.Reading? && n.session == l.session && n.user == l.user && n.pass == l.pass
    requires !n.stranger && n.state == l.state && n.out == l.out
    requires l.pc.Reading? ==> n.pc.purpose == l.pc.purpose
    requires match n.state
             case AuthRequested => n.pc.purpose == ForAuth
             case AwaitingAtr => n.pc.purpose == ForAtr
             case Idle => l.pc.Reading? && (n.pc.purpose == ForReset || n.pc.purpose.ForCommand?)
             case _ => false
    requires n.pc.purpose.ForCommand? && n.pc.purpose.cmd != [0] ==> mine != []
    ensures var m := Delivered(n, mine, c);
            && Live(m, c) && m.pc == Ready && m.state == Next(l.state)
            && (l.pc.Reading? && l.pc.purpose == ForReset ==> m.out == l.out + [Atr(c.atr)])
  {
  }

  // What a live client with something to read is doing.
  lemma Awaiting(l: Link, w: Wire, mine: seq<Exchange>, c: Config)
    requires c.Valid() && Fine(l, w, mine, c) && Live(l, c) && w.down != []
    ensures IsPacket(w.down)
    ensures match l.state
            case AuthRequested => l.pc == Ready || l.pc == Reading([], ForAuth)
            case AwaitingAtr => l.pc == Ready || l.pc == Reading([], ForAtr)
            case Idle => l.pc.Reading? && (l.pc.purpose == ForReset || l.pc.purpose.ForCommand?)
            case _ => false
  {
    hide PrepareAuth, PrepareAuthReply, PrepareResetRequest, PrepareResetReply, PrepareCmdRequest, PrepareCmdReply;
    hide Answers, IsPacket, Sane, OneAtr, Logs, Gate;
    G.ChannelDown(l, w, mine, c);
    SaneIsPacket(w.down, G.ReplyType(l));
  }

  // ---------- Back to rest ----------

  // A pending request is answered and the answer taken in.
  lemma {:induction false} Completes(steps: seq<Step>, c: Config, i: nat) returns (more: seq<Step>)
    requires c.Valid() && Attended(Run(steps, c), i, c)
    requires G.RequestBytes(Run(steps, c).links[i]) != []
    ensures steps <= more
    ensures var s, t := Run(steps, c), Run(more, c);
            && Attended(t, i, c) && t.links[i].pc == Ready && t.links[i].state == Next(s.links[i].state)
            && (Down(s.links[i], ViewOf(s, i)) == [] ==> t.pc == Free)
            && (Settle(s.links[i].pc) == Reading([], ForReset) ==> t.links[i].out == s.links[i].out + [Atr(c.atr)])
  {
    hide Run, Live, G.RequestBytes, Up, Down;
    var s := Run(steps, c);
    more := EndWrites(steps, c, i);
    var l, m := s.links[i], Run(more, c).links[i];
    SettledRequest(l);
    SettledRequest(m);
    SkeletonFields(l, m);
    more := GetsReply(more, c, i);
    more := TakeReply(more, c, i);
  }

  lemma SkeletonFields(l: Link, m: Link)
    requires Skeleton(l) == Skeleton(m)
    ensures l.state == m.state && Settle(l.pc) == Settle(m.pc) && l.out == m.out && l.asked == m.asked
  {
    assert l.state == Skeleton(l).state && m.state == Skeleton(m).state;
    assert Settle(l.pc) == Skeleton(l).pc && Settle(m.pc) == Skeleton(m).pc;
    assert l.out == Skeleton(l).out && m.out == Skeleton(m).out;
    assert l.asked == Skeleton(l).asked && m.asked == Skeleton(m).asked;
  }

  lemma WhatIsRequested(l: Link)
    ensures l.state == CM.AuthRequested || l.state == CM.AwaitingAtr ==> G.RequestBytes(l) != []
    ensures l.state == CM.Idle && Settle(l.pc) == Reading([], ForReset) ==> G.RequestBytes(l) != []
    ensures l.state == CM.Idle && G.Pending(l).Some? ==> G.RequestBytes(l) != []
  {
    G.PreparedNotEmpty(l.user, l.pass, if G.Pending(l).Some? then G.Pending(l).value else []);
  }

  lemma WhereItStands(l: Link, w: Wire, mine: seq<Exchange>, c: Config)
    requires Fine(l, w, mine, c)
    ensures l.state == CM.Init || l.state == CM.Authorized ==> l.pc == Ready
    ensures l.state == CM.Idle ==>
              l.pc == Ready || (l.pc.Reading? && (l.pc.purpose == ForReset || l.pc.purpose.ForCommand?))
  {
  }

  // Up to the moment it is idle, a live client has one thing to do next, and that leads on.
  lemma {:induction false} BecomesIdle(steps: seq<Step>, c: Config, i: nat) returns (more: seq<Step>)
    requires c.Valid() && Attended(Run(steps, c), i, c)
    ensures steps <= more
    ensures var t := Run(more, c); Attended(t, i, c) && t.links[i].state == CM.Idle && t.links[i].pc == Ready
    decreases match Run(steps, c).links[i].state
              case Init => 4 case AuthRequested => 3 case Authorized => 2 case AwaitingAtr => 1 case _ => 0
  {
    hide Run, Fine, G.RequestBytes, G.Channel, PrepareAuth, PrepareResetRequest;
    more := EndWrites(steps, c, i);
    var l := Run(more, c).links[i];
    SkeletonFields(Run(steps, c).links[i], l);
    ChannelHere(more, c, i);
    WhereItStands(Skeleton(l), WireOf(l, ViewOf(Run(more, c), i)), History(Run(more, c), i), c);
    WhatIsRequested(l);
    if l.state == CM.Idle {
      if l.pc != Ready {
        more := Completes(more, c, i);
      }
    } else {
      if l.state == CM.Init || l.state == CM.Authorized {
        var a := if l.state == CM.Init then Authorize else RequestAtr;
        Extend(more, Client(i, a), c);
        more := more + [Client(i, a)];
      } else {
        more := Completes(more, c, i);
      }
      more := BecomesIdle(more, c, i);
    }
  }

  // A reset goes through: the emulator is handed the reader's ATR and the connection is at rest,
  // even if the server had begun to wait for a request.
  lemma {:induction false} ResetGoesThrough(steps: seq<Step>, c: Config, i: nat) returns (more: seq<Step>)
    requires c.Valid() && Attended(Run(steps, c), i, c)
    requires Run(steps, c).links[i].state == CM.Idle && Run(steps, c).links[i].pc == Ready
    ensures steps <= more
    ensures var s, t := Run(steps, c), Run(more, c);
            AtRest(t, i) && t.links[i].out == s.links[i].out + [Atr(c.atr)]
  {
    hide Run, Fine, Live, AtRest, G.RequestBytes, G.Channel, PrepareResetRequest;
    var s := Run(steps, c);
    var l := s.links[i];
    IdleIsQuiet(steps, c, i);
    LiveMeans(l, c);
    Extend(steps, Client(i, EmulatorReset), c);
    more := steps + [Client(i, EmulatorReset)];
    ResetBegun(l, ViewOf(s, i), c);
    more := Completes(more, c, i);
    RestFound(more, c, i);
  }

  lemma ResetBegun(l: Link, v: View, c: Config)
    requires Live(l, c) && l.state == CM.Idle && l.pc == Ready && Down(l, v) == []
    ensures var m := ClientDo(l, EmulatorReset);
            && Live(m, c) && Down(m, v) == [] && G.RequestBytes(m) != [] && m.out == l.out && m.state == CM.Idle
            && Settle(m.pc) == Reading([], ForReset)
  {
    WhatIsRequested(ClientDo(l, EmulatorReset));
  }

  lemma {:induction false} IdleIsQuiet(steps: seq<Step>, c: Config, i: nat)
    requires c.Valid() && Attended(Run(steps, c), i, c)
    requires Run(steps, c).links[i].state == CM.Idle && Run(steps, c).links[i].pc == Ready
    ensures var s := Run(steps, c);
            var l := s.links[i];
            l.up == [] && l.down == [] && Down(l, ViewOf(s, i)) == [] && l.session == On(SM.Authorized)
  {
    hide Run, Fine;
    ChannelHere(steps, c, i);
    G.SameAsSkeleton(Run(steps, c).links[i]);
    var s := Run(steps, c);
    var l, v := s.links[i], ViewOf(s, i);
    assert WireOf(l, v) == Wire([], [], None);
    assert Up(l, v) == [] && Down(l, v) == [];
  }

  lemma {:induction false} RestFound(steps: seq<Step>, c: Config, i: nat)
    requires c.Valid() && Attended(Run(steps, c), i, c)
    requires var s := Run(steps, c); s.pc == Free && s.links[i].state == CM.Idle && s.links[i].pc == Ready
    ensures AtRest(Run(steps, c), i)
  {
    hide Run, Live;
    IdleIsQuiet(steps, c, i);
    LiveMeans(Run(steps, c).links[i], c);
  }

  // From any reachable state, whatever the clients, the strangers and the server are in the middle
  // of, every live connection can come to rest.
  lemma {:induction false} ComesToRest(steps: seq<Step>, c: Config, i: nat) returns (more: seq<Step>)
    requires c.Valid()
    requires i < |Run(steps, c).links| && Live(Run(steps, c).links[i], c)
    ensures steps <= more
    ensures AtRest(Run(more, c), i)
  {
    hide Run, Live, AtRest;
    more := FreeFromOthers(steps, c, i);
    more := BecomesIdle(more, c, i);
    if Run(more, c).pc == Free {
      RestFound(more, c, i);
    } else {
      more := ResetGoesThrough(more, c, i);
    }
  }

  // ---------- A lost connection stays lost ----------

  lemma ClientStaysLost(l: Link, v: View, mine: seq<Exchange>, a: ClientAct, c: Config)
    requires c.Valid() && LinkInv(l, v, mine, c) && ClientCan(l, a) && !Live(l, c)
    ensures !Live(ClientDo(l, a), c)
  {
    hide Resume, CM.RequestFor, PrepareAuth, PrepareResetRequest, Answers, Transit, Orphaned, Logs, OneAtr, Gate;
    if a.Finish? {
      FinishOutcome(l, v, mine, c);
    } else if a.GiveUp? {
      ClientGivesUp(l, v, mine, c);
    }
  }

  lemma SessionStaysLost(l: Link, conn: nat, v: View, a: ServerAct, c: Config)
    requires ServerCan(l, v, a) && !Live(l, c)
    ensures !Live(ServerDo(l, conn, v, a, c).link, c)
  {
    hide SM.Dispatch, G.Pending, Frame;
    SameClientAtServer(l, conn, v, a, c);
  }

  lemma SameClientAtServer(l: Link, conn: nat, v: View, a: ServerAct, c: Config)
    requires ServerCan(l, v, a)
    ensures A.SameClient(l, ServerDo(l, conn, v, a, c).link)
    ensures G.Pending(ServerDo(l, conn, v, a, c).link) == G.Pending(l)
    ensures Dead(l) ==> Dead(ServerDo(l, conn, v, a, c).link)
  {
    hide SM.Dispatch, Frame;
  }

  lemma StaysLost(s: State, step: Step, i: nat, c: Config)
    requires c.Valid() && Inv(s, c) && Can(s, step) && i < |s.links| && !Live(s.links[i], c)
    ensures var t := Do(s, step, c); i < |t.links| && !Live(t.links[i], c)
  {
    hide Live, LinkInv, ClientDo, ServerDo;
    match step
    case Client(j, a) =>
      if j == i {
        assert ConnInv(s.links[i], ViewOf(s, i), History(s, i), c);
        ClientStaysLost(s.links[i], ViewOf(s, i), History(s, i), a, c);
      }
    case Server(j, a) =>
      if j == i {
        SessionStaysLost(s.links[i], i, ViewOf(s, i), a, c);
      }
    case Inject(j, bytes) => StrangerIsLost(s.links[j].(up := s.links[j].up + bytes), c);
    case _ =>
  }

  lemma StrangerIsLost(l: Link, c: Config)
    ensures l.stranger ==> !Live(l, c)
  {
  }

  lemma {:induction false} LostForever(steps: seq<Step>, more: seq<Step>, i: nat, c: Config)
    requires c.Valid() && steps <= more
    requires i < |Run(steps, c).links| && !Live(Run(steps, c).links[i], c)
    ensures i < |Run(more, c).links| && !Live(Run(more, c).links[i], c)
    decreases |more|
  {
    hide Live, Can, Do, Inv;
    if |more| == |steps| {
      assert more == steps;
    } else {
      var before, step := more[..|more| - 1], more[|more| - 1];
      LostForever(steps, before, i, c);
      RunKeeps(before, c);
      if Can(Run(before, c), step) {
        StaysLost(Run(before, c), step, i, c);
      }
    }
  }

  lemma {:induction false} RestIsLive(steps: seq<Step>, c: Config, i: nat)
    requires c.Valid() && AtRest(Run(steps, c), i)
    ensures Live(Run(steps, c).links[i], c)
  {
    hide Run;
    G.PastAuthorisation(steps, c, i);
  }

  // In every reachable state, a connection can come to rest if and only if it is not lost.
  lemma {:induction false} RestIff(steps: seq<Step>, c: Config, i: nat)
    requires c.Valid() && i < |Run(steps, c).links|
    ensures (exists more :: steps <= more && AtRest(Run(more, c), i)) <==> Live(Run(steps, c).links[i], c)
  {
    hide Run, Live, AtRest;
    if Live(Run(steps, c).links[i], c) {
      var more := ComesToRest(steps, c, i);
      assert steps <= more && AtRest(Run(more, c), i);
    } else {
      forall more | steps <= more && AtRest(Run(more, c), i)
        ensures false
      {
        LostForever(steps, more, i, c);
        RestIsThere(Run(more, c), i);
        RestIsLive(more, c, i);
      }
    }
  }

  // In any reachable state a new client with the server's credentials can connect and get in, with
  // the reader's ATR cached.
  lemma {:induction false} NewClientGetsIn(steps: seq<Step>, c: Config) returns (more: seq<Step>)
    requires c.Valid() && GoodCredentials(c.user, c.pass)
    ensures steps <= more
    ensures var i := |Run(steps, c).links|; AtRest(Run(more, c), i) && Run(more, c).links[i].cached == c.atr
  {
    hide Run, Fine;
    var i := |Run(steps, c).links|;
    Extend(steps, Connect(c.user, c.pass), c);
    more := steps + [Connect(c.user, c.pass)];
    more := ComesToRest(more, c, i);
    G.PastAuthorisation(more, c, i);
  }

  // ---------- One exchange ----------

  lemma AnswerTaken(l: Link, cmd: Data, reply: Data)
    requires l.pc == Reading(PrepareCmdReply(reply), ForCommand(cmd)) && |reply| <= MAX_PAYLOAD && !l.stranger
    requires IsPacket(l.pc.got)
    ensures ClientDo(l, Finish) == l.(pc := Ready, out := l.out + [Answer(cmd + reply)])
  {
    hide GetSize, PrepareCmdReply;
    CmdReplyAloneIff(reply, cmd);
  }

  // From rest any command and any answer of the card make a complete exchange: one tick of the
  // client, cut by one tick of its session.
  lemma {:induction false} ExchangeFromRest(steps: seq<Step>, c: Config, i: nat, cmd: Data, reply: Data)
    returns (more: seq<Step>)
    requires c.Valid() && AtRest(Run(steps, c), i)
    requires cmd != [0] && |cmd| <= MAX_PAYLOAD && |reply| <= MAX_PAYLOAD
    ensures steps <= more
    ensures var s, t := Run(steps, c), Run(more, c);
            && AtRest(t, i)
            && t.ops == s.ops + [CardWrite(i, cmd), CardRead(i, reply)]
            && t.links == s.links[i := s.links[i].(asked := s.links[i].asked + [cmd],
                                                   out := s.links[i].out + [Answer(cmd + reply)])]
  {
    hide IsPacket, Run, Need, PrepareCmdRequest, PrepareCmdReply, Resume;
    hide ServerRun, ClientRun, S.Wires, S.CardActs, S.Tick;
    var s := Run(steps, c);
    var l := s.links[i];
    var request, answer := PrepareCmdRequest(cmd), PrepareCmdReply(reply);
    assert [] + request == request && [] + answer == answer && request == request + [] && answer == answer + [];

    Extend(steps, Client(i, EmulatorCommand(cmd)), c);
    more := steps + [Client(i, EmulatorCommand(cmd))];
    var l0 := l.(pc := Writing(request, Await(ForCommand(cmd))), asked := l.asked + [cmd]);
    assert Run(more, c).links[i] == l0;
    NoClientSteps(l0);
    var writing := ClientWrites(l0, [], l0);
    var l1 := l0.(pc := Reading([], ForCommand(cmd)), up := request);
    more := ClientInSystem(more, c, i, writing, l1);

    CommandTick(cmd, reply, c);
    var acts := A.SessionTickIsSteps(l1, i, S.Read(request, reply), [], c);
    var l2 := l1.(up := [], down := answer);
    var ops := [CardWrite(i, cmd), CardRead(i, reply)];
    assert l1.(session := On(SM.Authorized), up := [], down := l1.down + answer) == l2;
    assert A.Tagged([S.CardWrite(cmd), S.CardRead(reply)], i) == ops;
    more := ServerInSystem(more, c, i, acts, ServerEffect(l2, Off, ops));

    NoClientSteps(l2);
    RepliesArePackets(true, reply);
    PacketFits(answer);
    var taking := ClientArrives(l2, [], l2, answer, []);
    var l3 := l2.(down := [], pc := Reading(answer, ForCommand(cmd)));
    ClientExtend(l2, taking, l3, Finish);
    taking := taking + [Finish];
    var l4 := l.(asked := l.asked + [cmd], out := l.out + [Answer(cmd + reply)]);
    assert ClientDo(l3, Finish) == l4 by { AnswerTaken(l3, cmd, reply); }
    more := ClientInSystem(more, c, i, taking, l4);
    assert s.links[i := l0][i := l1][i := l2][i := l4] == s.links[i := l4];
  }

  lemma CommandTick(cmd: Data, reply: Data, c: Config)
    requires |cmd| <= MAX_PAYLOAD
    ensures IsPacket(PrepareCmdRequest(cmd))
    ensures var r := S.Tick(SM.Authorized, S.Read(PrepareCmdRequest(cmd), reply), c);
            && r.st == SM.Authorized && S.Wires(r.acts) == PrepareCmdReply(reply)
            && S.CardActs(r.acts) == [S.CardWrite(cmd), S.CardRead(reply)]
  {
    hide Frame, SM.Dispatch, IsPacket;
    RequestsArePackets([], [], cmd);
    DispatchRequest(cmd, c);
    S.WiresOfCommand(cmd, reply);
  }

  // From any reachable state a live connection can be served any command: the reader executes it as
  // the last thing it did, and the emulator is handed command and answer.
  lemma {:induction false} ExchangeGoesThrough(steps: seq<Step>, c: Config, i: nat, cmd: Data, reply: Data)
    returns (more: seq<Step>)
    requires c.Valid()
    requires i < |Run(steps, c).links| && Live(Run(steps, c).links[i], c)
    requires cmd != [0] && |cmd| <= MAX_PAYLOAD && |reply| <= MAX_PAYLOAD
    ensures steps <= more
    ensures var t := Run(more, c);
            && AtRest(t, i)
            && |t.ops| >= 2 && t.ops[|t.ops| - 2..] == [CardWrite(i, cmd), CardRead(i, reply)]
            && t.links[i].out != [] && t.links[i].out[|t.links[i].out| - 1] == Answer(cmd + reply)
  {
    hide Run, Live, AtRest;
    var rest := ComesToRest(steps, c, i);
    var s := Run(rest, c);
    assert i < |s.links| by { RestIsThere(s, i); }
    more := ExchangeFromRest(rest, c, i, cmd, reply);
    var t := Run(more, c);
    assert t.ops[|t.ops| - 2..] == [CardWrite(i, cmd), CardRead(i, reply)];
  }

  lemma RestIsThere(s: State, i: nat)
    requires AtRest(s, i)
    ensures i < |s.links|
  {
  }

  // ---------- Closed sessions and strangers ----------

  // A session that is closed can be swept away.
  lemma {:induction false} ClosedIsSwept(steps: seq<Step>, c: Config, i: nat) returns (more: seq<Step>)
    requires c.Valid() && i < |Run(steps, c).links| && Run(steps, c).links[i].session == On(SM.Closed)
    ensures steps <= more
    ensures i < |Run(more, c).links| && Run(more, c).links[i].session == Gone
  {
    hide Run;
    more := FreeFromOthers(steps, c, i);
    var s := Run(more, c);
    if s.pc.Busy? {
      ViewOfBusy(more, c);
      var l, v := s.links[i], s.pc.view;
      NoServerSteps(l, i, v, c);
      var acts := ServerWrites(l, i, v, [], ServerEffect(l, v, []), c);
      more := ServerInSystem(more, c, i, acts, ServerEffect(l.(down := l.down + v.rest), Off, []));
    }
    Extend(more, Server(i, Sweep), c);
    more := more + [Server(i, Sweep)];
  }

  // Strangers are peers like any other: whatever a stranger sends is read as it was sent, and one
  // that knows the credentials has any command executed.
  lemma {:induction false} StrangerIsServed(steps: seq<Step>, c: Config, cmd: Data, reply: Data)
    returns (more: seq<Step>)
    requires c.Valid() && GoodCredentials(c.user, c.pass)
    requires |cmd| <= MAX_PAYLOAD && |reply| <= MAX_PAYLOAD
    ensures steps <= more
    ensures var i, t := |Run(steps, c).links|, Run(more, c);
            && i < |t.links| && t.links[i].stranger
            && t.links[i].down == PrepareAuthReply(true) + PrepareCmdReply(reply)
            && |t.ops| >= 2 && t.ops[|t.ops| - 2..] == [CardWrite(i, cmd), CardRead(i, reply)]
  {
    hide IsPacket, Run, Need, PrepareAuth, PrepareAuthReply, PrepareCmdRequest, PrepareCmdReply;
    hide ServerRun, S.Wires, S.CardActs, S.Tick, ViewFits;
    var i := |Run(steps, c).links|;
    var auth, request := PrepareAuth(c.user, c.pass), PrepareCmdRequest(cmd);
    Extend(steps, Intrude, c);
    more := FreeFromOthers(steps + [Intrude], c, i);
    var s := Run(more, c);
    assert s.pc == Free by {
      if s.pc.Busy? {
        ViewOfBusy(more, c);
        NotYetServed(s.links[i], s.pc.view);
      }
    }
    Extend(more, Inject(i, auth + request), c);
    more := more + [Inject(i, auth + request)];
    assert [] + (auth + request) == auth + request && request + [] == request;
    Extend(more, Server(i, AcceptConn), c);
    more := more + [Server(i, AcceptConn)];
    var l := Run(more, c).links[i];
    assert l == NewStranger().(up := auth + request, session := On(SM.Init));

    EntryTick(c);
    var entry := A.SessionTickIsSteps(l, i, S.Read(auth, []), request, c);
    var l1 := l.(session := On(SM.Authorized), up := request, down := PrepareAuthReply(true));
    assert l.down + PrepareAuthReply(true) == PrepareAuthReply(true);
    more := ServerInSystem(more, c, i, entry, ServerEffect(l1, Off, A.Tagged([], i)));

    CommandTick(cmd, reply, c);
    var acts := A.SessionTickIsSteps(l1, i, S.Read(request, reply), [], c);
    var ops := [CardWrite(i, cmd), CardRead(i, reply)];
    assert A.Tagged([S.CardWrite(cmd), S.CardRead(reply)], i) == ops;
    var l2 := l1.(session := On(SM.Authorized), up := [], down := l1.down + PrepareCmdReply(reply));
    var before := Run(more, c).ops;
    more := ServerInSystem(more, c, i, acts, ServerEffect(l2, Off, ops));
    assert (before + ops)[|before + ops| - 2..] == ops;
  }

  lemma NotYetServed(l: Link, v: View)
    requires ViewFits(l, v) && l.session == Waiting
    ensures v == Off
  {
  }

  lemma EntryTick(c: Config)
    requires c.Valid() && GoodCredentials(c.user, c.pass)
    ensures IsPacket(PrepareAuth(c.user, c.pass))
    ensures var r := S.Tick(SM.Init, S.Read(PrepareAuth(c.user, c.pass), []), c);
            r.st == SM.Authorized && S.Wires(r.acts) == PrepareAuthReply(true) && S.CardActs(r.acts) == []
  {
    hide Frame, SM.Dispatch, IsPacket;
    RequestsArePackets(c.user, c.pass, []);
    DispatchAuth(NewLink(c.user, c.pass), c);
    S.WiresOfOne(S.AuthReplied(true, PrepareAuth(c.user, c.pass)));
  }
}
