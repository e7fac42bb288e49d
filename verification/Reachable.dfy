// The lock-step invariant for every run of the composed system, strangers included.
module Reachable {
  import opened Bytes
  import opened Protocol
  import opened Framing
  import opened LockStep
  import opened System
  import SM = SessionMachine

  // The reader is in the middle of an exchange exactly when the server waits for its answer.
  predicate ReaderInv(s: State) {
    && Serial(s.ops)
    && (s.pc.Busy? ==> s.pc.conn < |s.links| && s.pc.view != Off)
    && (|s.ops| % 2 == 1 <==> s.pc.Busy? && s.pc.view.AtCard?)
    && (|s.ops| % 2 == 1 ==> s.ops[|s.ops| - 1] == CardWrite(s.pc.conn, s.pc.view.cmd))
    && (forall k | 0 <= k < |Exchanges(s.ops)| :: Exchanges(s.ops)[k].conn < |s.links|)
  }

  function History(s: State, i: nat): seq<Exchange>
    requires Serial(s.ops)
  {
    Mine(Exchanges(s.ops), i)
  }

  // Of a stranger's connection only the server's side is known.
  predicate StrangerInv(l: Link, v: View) {
    l.stranger && ViewFits(l, v) && l.asked == [] && l.out == []
  }

  predicate ConnInv(l: Link, v: View, mine: seq<Exchange>, c: Config) {
    if l.stranger then StrangerInv(l, v) else LinkInv(l, v, mine, c)
  }

  predicate Inv(s: State, c: Config) {
    && ReaderInv(s)
    && (forall i: nat | i < |s.links| :: ConnInv(s.links[i], ViewOf(s, i), History(s, i), c))
  }

  // ---------- Connections come and clients move ----------

  lemma ConnectKeeps(s: State, user: Data, pass: Data, c: Config)
    requires Inv(s, c) && GoodCredentials(user, pass)
    ensures Inv(Do(s, Connect(user, pass), c), c)
  {
    hide LinkInv, Serial, Exchanges;
    MineOfStranger(Exchanges(s.ops), |s.links|);
    NewLinkInv(user, pass, c);
  }

  lemma IntrudeKeeps(s: State, c: Config)
    requires Inv(s, c)
    ensures Inv(Do(s, Intrude, c), c)
  {
    hide LinkInv, Serial, Exchanges;
  }

  lemma InjectKeeps(s: State, i: nat, bytes: Data, c: Config)
    requires Inv(s, c) && Can(s, Inject(i, bytes))
    ensures Inv(Do(s, Inject(i, bytes), c), c)
  {
    hide LinkInv, Serial, Exchanges;
  }

  lemma ClientStepKeeps(s: State, i: nat, a: ClientAct, c: Config)
    requires c.Valid() && Inv(s, c) && Can(s, Client(i, a))
    ensures Inv(Do(s, Client(i, a), c), c)
  {
    hide LinkInv, Serial, Exchanges, ClientDo;
    ClientKeeps(s.links[i], ViewOf(s, i), History(s, i), a, c);
    StaysHonest(s.links[i], a);
  }

  // ---------- The server moves ----------

  // The exchange that a server step completes, if it does.
  function Completed(conn: nat, v: View, a: ServerAct): seq<Exchange> {
    if v.AtCard? && a.CardAnswers? then [Exchange(conn, v.cmd, a.reply)] else []
  }

  // What one server step does to its own connection and to the reader, whoever the peer is.
  predicate Effect(l: Link, conn: nat, v: View, mine: seq<Exchange>, a: ServerAct, e: ServerEffect, c: Config) {
    && ConnInv(e.link, e.view, mine + Completed(conn, v, a), c)
    && e.link.stranger == l.stranger
    && (if a.CardAnswers? then !e.view.AtCard? && e.ops == [CardRead(conn, a.reply)]
        else if e.view.AtCard? then !v.AtCard? && e.ops == [CardWrite(conn, e.view.cmd)]
        else !v.AtCard? && e.ops == [])
  }

  lemma HonestEffect(l: Link, conn: nat, v: View, mine: seq<Exchange>, a: ServerAct, c: Config)
    requires c.Valid() && LinkInv(l, v, mine, c) && ServerCan(l, v, a)
    ensures Effect(l, conn, v, mine, a, ServerDo(l, conn, v, a, c), c)
  {
    hide LinkInv, ServerDo;
    assert mine + [] == mine;
    StaysHonestAtServer(l, conn, v, mine, a, c);
    match a
    case Handle => ServerHandles(l, conn, v, mine, c);
    case CardAnswers(reply) => ServerReplies(l, conn, v, mine, reply, c);
    case _ => ServerKeeps(l, conn, v, mine, a, c);
  }

  lemma StaysHonestAtServer(l: Link, conn: nat, v: View, mine: seq<Exchange>, a: ServerAct, c: Config)
    requires LinkInv(l, v, mine, c) && ServerCan(l, v, a)
    ensures !l.stranger && ServerDo(l, conn, v, a, c).link.stranger == l.stranger
    ensures !a.CardAnswers? ==> !v.AtCard?
  {
    hide SM.Dispatch, Fine, Frame;
  }

  lemma StrangerEffect(l: Link, conn: nat, v: View, mine: seq<Exchange>, a: ServerAct, c: Config)
    requires StrangerInv(l, v) && ServerCan(l, v, a)
    ensures Effect(l, conn, v, mine, a, ServerDo(l, conn, v, a, c), c)
  {
    hide SM.Dispatch, LinkInv, Need, Frame;
    if ServerMoves(a) {
      ServerMovesBytes(l, conn, v, a, c);
    }
  }

  lemma AnswersAtCard(l: Link, v: View, a: ServerAct)
    requires ServerCan(l, v, a) && a.CardAnswers?
    ensures v.AtCard?
  {
  }

  // A server step on one connection, and what it means for the history of each connection.
  lemma ServerEffectOnReader(s: State, i: nat, a: ServerAct, c: Config)
    requires c.Valid() && Inv(s, c) && Can(s, Server(i, a))
    ensures var t := Do(s, Server(i, a), c);
            && ReaderInv(t)
            && ConnInv(t.links[i], ViewOf(t, i), History(t, i), c)
            && (forall j | j != i :: History(t, j) == History(s, j))
            && History(t, i) == History(s, i) + Completed(i, ViewOf(s, i), a)
  {
    hide ConnInv, Serial, Exchanges, ServerDo, Mine;
    var l, v, mine := s.links[i], ViewOf(s, i), History(s, i);
    var e := ServerDo(l, i, v, a, c);
    assert ConnInv(l, v, mine, c);
    AnyEffect(l, i, v, mine, a, c);
    assert mine + [] == mine;
    if a.CardAnswers? {
      AnswersAtCard(l, v, a);
      SerialRead(s.ops, CardRead(i, a.reply));
      var x := Exchange(i, v.cmd, a.reply);
      forall j: nat
        ensures Mine(Exchanges(s.ops) + [x], j) == Mine(Exchanges(s.ops), j) + (if i == j then [x] else [])
      {
        MineAppend(Exchanges(s.ops), x, j);
      }
    } else if e.view.AtCard? {
      SerialWrite(s.ops, CardWrite(i, e.view.cmd));
    } else {
      assert s.ops + e.ops == s.ops;
    }
  }

  lemma AnyEffect(l: Link, conn: nat, v: View, mine: seq<Exchange>, a: ServerAct, c: Config)
    requires c.Valid() && ConnInv(l, v, mine, c) && ServerCan(l, v, a)
    ensures Effect(l, conn, v, mine, a, ServerDo(l, conn, v, a, c), c)
  {
    hide LinkInv, StrangerInv, ServerDo, Effect, ServerCan;
    if l.stranger {
      StrangerEffect(l, conn, v, mine, a, c);
    } else {
      HonestEffect(l, conn, v, mine, a, c);
    }
  }

  lemma ServerStepKeeps(s: State, i: nat, a: ServerAct, c: Config)
    requires c.Valid() && Inv(s, c) && Can(s, Server(i, a))
    ensures Inv(Do(s, Server(i, a), c), c)
  {
    hide ConnInv, Serial, Exchanges, ServerCan, ServerDo, Mine;
    ServerEffectOnReader(s, i, a, c);
    var t := Do(s, Server(i, a), c);
    forall j: nat | j < |t.links| && j != i
      ensures ConnInv(t.links[j], ViewOf(t, j), History(t, j), c)
    {
      assert ViewOf(s, j) == Off == ViewOf(t, j);
    }
  }

  lemma StepKeeps(s: State, step: Step, c: Config)
    requires c.Valid() && Inv(s, c) && Can(s, step)
    ensures Inv(Do(s, step, c), c)
  {
    hide Inv;
    match step
    case Connect(user, pass) => ConnectKeeps(s, user, pass, c);
    case Intrude => IntrudeKeeps(s, c);
    case Inject(i, bytes) => InjectKeeps(s, i, bytes, c);
    case Client(i, a) => ClientStepKeeps(s, i, a, c);
    case Server(i, a) => ServerStepKeeps(s, i, a, c);
  }

  // The invariant holds after every schedule: any number of clients and strangers, any interleaving,
  // any way the bytes are split up.
  lemma {:induction false} RunKeeps(steps: seq<Step>, c: Config)
    requires c.Valid()
    ensures Inv(Run(steps, c), c)
  {
    hide Inv, Do, Can;
    if steps == [] {
      StartInv(c);
    } else {
      var before, step := steps[..|steps| - 1], steps[|steps| - 1];
      RunKeeps(before, c);
      if Can(Run(before, c), step) {
        StepKeeps(Run(before, c), step, c);
      }
    }
  }

  lemma StartInv(c: Config)
    ensures Inv(START, c)
  {
  }
}
