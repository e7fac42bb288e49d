// What the lock-step invariant and the refinement promise about every run.
module WiredFacts {
  import opened Bytes
  import opened System
  import W = Wired

  // One emulator's view: its commands were executed once each, in order and unchanged, at most one
  // is pending, and each answer it was handed is its own command followed by the reader's answer.
  predicate SlotFacts(asked: seq<Data>, out: seq<EmuWrite>, mine: seq<Exchange>, atr: Data) {
    && |Answers(out)| <= |mine| <= |asked| <= |Answers(out)| + 1
    && (forall k | 0 <= k < |mine| :: mine[k].cmd == asked[k])
    && (forall k | 0 <= k < |Answers(out)| :: Answers(out)[k] == mine[k].cmd + mine[k].reply)
    && (forall k | 0 <= k < |out| :: out[k].Atr? ==> out[k].data == atr)
  }

  predicate Facts(w: W.State, atr: Data) {
    && (forall k | 0 <= k < |w.history| :: w.history[k].conn < |w.slots|)
    && (forall i: nat | i < |w.slots| && W.Emulator(w, i) ::
          SlotFacts(w.slots[i].asked, w.slots[i].out, Mine(w.history, i), atr))
  }

  lemma ActKeeps(w: W.State, a: W.Act, atr: Data)
    requires Facts(w, atr) && W.Can(w, a)
    ensures Facts(W.Do(w, a, atr), atr)
  {
    hide Mine, Answers;
    var t := W.Do(w, a, atr);
    match a
    case Plug(_) => MineOfStranger(w.history, |w.slots|);
      assert Answers([]) == [] by { EmptyAnswers(); }
    case Ask(i, cmd) =>
    case Serve(i, reply) =>
      HistoryGrows(w, Exchange(i, w.slots[i].asked[W.Served(w, i)], reply), i);
    case Deliver(i) => AnswersAppend(w.slots[i].out, t.slots[i].out[|w.slots[i].out|]);
    case Reset(i) => AnswersAppend(w.slots[i].out, Atr(atr));
    case Foreign(i, cmd, reply) => HistoryGrows(w, Exchange(i, cmd, reply), i);
  }

  // An exchange of one connection is nothing to the others.
  lemma HistoryGrows(w: W.State, x: Exchange, i: nat)
    requires x.conn == i
    ensures forall j: nat :: Mine(w.history + [x], j) == Mine(w.history, j) + (if j == i then [x] else [])
  {
    forall j: nat
      ensures Mine(w.history + [x], j) == Mine(w.history, j) + (if j == i then [x] else [])
    {
      MineAppend(w.history, x, j);
    }
  }

  lemma EmptyAnswers()
    ensures Answers([]) == []
  {
  }

  lemma {:induction false} WiredRun(acts: seq<W.Act>, atr: Data)
    ensures Facts(W.Run(acts, atr), atr)
  {
    hide Facts, W.Can, W.Do;
    if acts == [] {
      assert Facts(W.START, atr) by { StartFacts(atr); }
    } else {
      var before, a := acts[..|acts| - 1], acts[|acts| - 1];
      WiredRun(before, atr);
      if W.Can(W.Run(before, atr), a) {
        ActKeeps(W.Run(before, atr), a, atr);
      }
    }
  }

  lemma StartFacts(atr: Data)
    ensures Facts(W.START, atr)
  {
  }
}

module Guarantees {
  import opened Bytes
  import opened Protocol
  import opened Framing
  import opened LockStep
  import opened Reachable
  import opened System
  import opened WiredFacts
  import CM = ClientMachine
  import R = Refinement
  import SM = SessionMachine

  // A client among the connections, rather than a stranger.
  predicate IsClient(s: State, i: nat) {
    i < |s.links| && !s.links[i].stranger
  }

  lemma {:induction false} LinkOf(steps: seq<Step>, c: Config, i: nat)
    requires c.Valid() && IsClient(Run(steps, c), i)
    ensures var s := Run(steps, c);
            && Serial(s.ops) && (s.pc.Busy? ==> s.pc.view != Off)
            && LinkInv(s.links[i], ViewOf(s, i), History(s, i), c)
  {
    hide Run, LinkInv, Serial;
    RunKeeps(steps, c);
    var s := Run(steps, c);
    assert ConnInv(s.links[i], ViewOf(s, i), History(s, i), c);
  }

  // ---------- The channels ----------

  // The request a live client is waiting to have answered, as bytes.
  function RequestBytes(l: Link): Data {
    match l.state
    case AuthRequested => PrepareAuth(l.user, l.pass)
    case AwaitingAtr => PrepareResetRequest()
    case Idle =>
      (match Settle(l.pc)
       case Reading(_, ForReset) => PrepareResetRequest()
       case Reading(_, ForCommand(cmd)) => CM.RequestFor(cmd)
       case _ => [])
    case _ => []
  }

  // The command a client is busy with, if any.
  function Pending(l: Link): Option<Data> {
    match Settle(l.pc)
    case Reading(_, ForCommand(cmd)) => Some(cmd)
    case _ => None
  }

  function ReplyType(l: Link): PacketType {
    match l.state
    case AuthRequested => AuthReply
    case Idle => if Pending(l).Some? && Pending(l) != Some([0]) then CmdReply else ResetReply
    case _ => ResetReply
  }

  lemma PreparedSane(authorized: bool, data: Data)
    requires |data| <= MAX_PAYLOAD
    ensures Sane(PrepareAuthReply(authorized), AuthReply)
    ensures Sane(PrepareResetReply(data), ResetReply)
    ensures Sane(PrepareCmdReply(data), CmdReply)
  {
    hide Sane, Frame;
    FrameSaneIff(AuthReply, [if authorized then AUTHORIZED else UNAUTHORIZED]);
    FrameSaneIff(ResetReply, data);
    FrameSaneIff(CmdReply, data);
  }

  lemma PreparedNotEmpty(user: Data, pass: Data, cmd: Data)
    ensures PrepareAuth(user, pass) != [] && PrepareResetRequest() != [] && PrepareCmdRequest(cmd) != []
  {
  }

  lemma RepliesNotEmpty(authorized: bool, data: Data)
    ensures PrepareAuthReply(authorized) != [] && PrepareResetReply(data) != [] && PrepareCmdReply(data) != []
  {
  }

  // What is in transit while both ends are live.
  predicate Channel(l: Link, w: Wire, c: Config) {
    && (w.up == [] || w.down == [])
    && (w.up != [] ==> w.up == RequestBytes(l))
    && (RequestBytes(l) == [] ==> w == Wire([], [], None))
    && (RequestBytes(l) != [] ==> w.up == RequestBytes(l) || w.down != [] || w.card.Some?)
    && (w.card.Some? ==> RequestBytes(l) == PrepareCmdRequest(w.card.value) && w.up == [] && w.down == [])
    && (w.up != [] ==> if l.state == CM.AuthRequested then PreAuth(l) else l.session == On(SM.Authorized))
    && (w.down != [] ==> l.session == On(SM.Authorized))
    && (l.state == CM.Authorized || l.state == CM.AwaitingAtr || l.state == CM.Idle ==>
          l.session == On(SM.Authorized) && Match(l, c))
  }

  lemma ChannelOf(l: Link, w: Wire, mine: seq<Exchange>, c: Config)
    requires Fine(l, w, mine, c) && l.state != CM.Closed && !Dead(l)
    ensures Channel(l, w, c)
  {
    hide PrepareAuth, PrepareAuthReply, PrepareResetRequest, PrepareResetReply, PrepareCmdRequest, PrepareCmdReply;
    hide Answers, Logs, OneAtr;
    PreparedNotEmpty(l.user, l.pass, if Pending(l).Some? then Pending(l).value else []);
    RepliesNotEmpty(Match(l, c), c.atr);
    if |mine| > 0 {
      RepliesNotEmpty(true, mine[|mine| - 1].reply);
    }
  }

  lemma ChannelDown(l: Link, w: Wire, mine: seq<Exchange>, c: Config)
    requires c.Valid() && Fine(l, w, mine, c) && l.state != CM.Closed && !Dead(l) && w.down != []
    ensures Sane(w.down, ReplyType(l))
  {
    hide PrepareAuth, PrepareAuthReply, PrepareResetRequest, PrepareResetReply, PrepareCmdRequest, PrepareCmdReply;
    hide Answers, Sane, OneAtr, Gate;
    PreparedSane(Match(l, c), c.atr);
    if |mine| > 0 {
      PreparedSane(true, mine[|mine| - 1].reply);
    }
  }

  lemma RequestIsPacket(l: Link, w: Wire, mine: seq<Exchange>, c: Config)
    requires Fine(l, w, mine, c) && RequestBytes(l) != []
    ensures IsPacket(RequestBytes(l))
  {
    hide PrepareAuth, PrepareAuthReply, PrepareResetRequest, PrepareResetReply, PrepareCmdRequest, PrepareCmdReply;
    hide Answers, IsPacket, Logs, OneAtr, Gate;
    RequestsArePackets(l.user, l.pass, if Pending(l).Some? then Pending(l).value else []);
  }

  // While both ends are live, the two queues and any partly written or partly read bytes hold at most
  // one packet; going up it is the client's pending request, coming down it is a reply of the awaited
  // type. A pending request is always somewhere: on its way up, at the card, or answered and on its
  // way down. Which it can be follows from the state of the session: an authentication travels before
  // the session is authorised, everything else after. An idle client between ticks has nothing in
  // transit, and a client past authorisation has a session that accepted its credentials.
  lemma {:induction false} Channels(steps: seq<Step>, c: Config, i: nat)
    requires c.Valid() && IsClient(Run(steps, c), i)
    requires var l := Run(steps, c).links[i]; l.state != CM.Closed && !Dead(l)
    ensures var s := Run(steps, c);
            var l, w := s.links[i], WireOf(s.links[i], ViewOf(s, i));
            && Channel(l, w, c)
            && (w.up != [] ==> IsPacket(w.up))
            && (w.down != [] ==> Sane(w.down, ReplyType(l)))
            && (l.state == CM.Idle && l.pc == Ready ==> w == Wire([], [], None))
  {
    hide Run, Fine, IsPacket, Sane, RequestBytes, PrepareCmdRequest;
    LinkOf(steps, c, i);
    var s := Run(steps, c);
    var l, v, mine := s.links[i], ViewOf(s, i), History(s, i);
    var k, w := Skeleton(l), WireOf(l, v);
    ChannelOf(k, w, mine, c);
    SameAsSkeleton(l);
    if w.up != [] {
      RequestIsPacket(k, w, mine, c);
    }
    if w.down != [] {
      ChannelDown(k, w, mine, c);
    }
  }

  lemma SameAsSkeleton(l: Link)
    ensures RequestBytes(Skeleton(l)) == RequestBytes(l) && ReplyType(Skeleton(l)) == ReplyType(l)
    ensures Pending(Skeleton(l)) == Pending(l)
    ensures l.state == CM.Idle && l.pc == Ready ==> RequestBytes(l) == []
  {
  }

  // ---------- Who gets what ----------

  // A client past authorisation, whatever has become of its session since, used the server's
  // credentials. The ATR it has cached and every ATR its emulator was handed are the reader's.
  lemma {:induction false} PastAuthorisation(steps: seq<Step>, c: Config, i: nat)
    requires c.Valid() && IsClient(Run(steps, c), i)
    ensures var l := Run(steps, c).links[i];
            && (l.state == CM.Authorized || l.state == CM.AwaitingAtr || l.state == CM.Idle ==>
                  Match(l, c) && (l.session == On(SM.Authorized) || Dead(l)))
            && (l.state == CM.Idle ==> l.cached == c.atr)
            && (forall k | 0 <= k < |l.out| :: l.out[k].Atr? ==> l.out[k].data == c.atr)
  {
    hide PrepareAuth, PrepareAuthReply, PrepareResetRequest, PrepareResetReply, PrepareCmdRequest, PrepareCmdReply;
    hide Answers, Run;
    LinkOf(steps, c, i);
  }

  // The authorisation gate over whole runs: among the clients, only those whose credentials are the
  // server's have commands at the reader, an authorised session, or an emulator that was handed
  // anything.
  lemma {:induction false} OnlyAuthorised(steps: seq<Step>, c: Config)
    requires c.Valid()
    ensures var s := Run(steps, c);
            && (forall k | 0 <= k < |s.ops| :: s.ops[k].conn < |s.links| &&
                  (!s.links[s.ops[k].conn].stranger ==> Match(s.links[s.ops[k].conn], c)))
            && (forall i: nat | IsClient(s, i) ::
                  s.links[i].session == On(SM.Authorized) || s.links[i].asked != [] || s.links[i].out != [] ==>
                    Match(s.links[i], c))
  {
    hide Run, Mine, Exchanges, Match, LinkInv;
    RunKeeps(steps, c);
    var s := Run(steps, c);
    forall i: nat | IsClient(s, i)
      ensures Gate(s.links[i], c)
    {
      LinkOf(steps, c, i);
      GateHolds(s.links[i], ViewOf(s, i), History(s, i), c);
    }
    forall k | 0 <= k < |s.ops|
      ensures s.ops[k].conn < |s.links|
      ensures !s.links[s.ops[k].conn].stranger ==> Match(s.links[s.ops[k].conn], c)
    {
      assert SerialAt(s.ops, k);
      var w := if s.ops[k].CardWrite? then k else k - 1;
      WriteWasAsked(s, c, w);
      if !s.links[s.ops[w].conn].stranger {
        assert Gate(s.links[s.ops[w].conn], c);
      }
    }
  }

  lemma GateHolds(l: Link, v: View, mine: seq<Exchange>, c: Config)
    requires LinkInv(l, v, mine, c)
    ensures Gate(l, c)
  {
  }

  // Whatever the clients and the strangers do, the reader sees adjacent write/read pairs, one
  // connection at a time.
  lemma {:induction false} ReaderIsSerial(steps: seq<Step>, c: Config)
    requires c.Valid()
    ensures Serial(Run(steps, c).ops)
  {
    hide Run, ConnInv;
    RunKeeps(steps, c);
  }

  // Each emulator's commands reach the reader once each, unchanged and in order, and it is handed
  // answers to its own commands only.
  lemma {:induction false} EmulatorView(steps: seq<Step>, c: Config, i: nat)
    requires c.Valid() && IsClient(Run(steps, c), i)
    ensures var s := Run(steps, c);
            && Serial(s.ops)
            && SlotFacts(s.links[i].asked, s.links[i].out, Mine(Exchanges(s.ops), i), c.atr)
  {
    hide Run, SlotFacts, R.W.Run, R.W.Legal, Serial, Exchanges, Mine, R.Acts;
    R.EndToEnd(steps, c);
    WiredRun(R.Acts(steps, c), c.atr);
    var w := R.Seen(Run(steps, c));
    assert Facts(w, c.atr) && R.W.Emulator(w, i) && w.slots[i] == R.SlotOf(Run(steps, c).links[i]);
  }

  // The emulator is handed the reader's answer and nothing more exactly when its command was empty.
  lemma {:induction false} AnswerAloneIff(steps: seq<Step>, c: Config, i: nat, k: nat)
    requires c.Valid() && IsClient(Run(steps, c), i)
    requires k < |Answers(Run(steps, c).links[i].out)|
    ensures var s := Run(steps, c);
            && Serial(s.ops) && k < |Mine(Exchanges(s.ops), i)| && k < |s.links[i].asked|
            && (Answers(s.links[i].out)[k] == Mine(Exchanges(s.ops), i)[k].reply <==> s.links[i].asked[k] == [])
  {
    hide Run, Answers, Mine, Serial, Exchanges;
    EmulatorView(steps, c, i);
    var s := Run(steps, c);
    var x := Mine(Exchanges(s.ops), i)[k];
    assert x.cmd == [] ==> x.cmd + x.reply == x.reply;
    assert |x.cmd + x.reply| == |x.cmd| + |x.reply|;
  }

  // A lone zero byte is never executed: whichever way the read for it ends, the client closes and
  // its emulator is handed nothing, and no such command of a client ever reaches the reader.
  lemma {:induction false} LoneZeroByte(steps: seq<Step>, c: Config, i: nat, a: ClientAct)
    requires c.Valid() && IsClient(Run(steps, c), i)
    requires var l := Run(steps, c).links[i];
             ClientCan(l, a) && (a.Finish? || a.GiveUp?) && l.pc.purpose == ForCommand([0])
    ensures var l := Run(steps, c).links[i];
            ClientDo(l, a).state == CM.Closed && ClientDo(l, a).out == l.out
    ensures forall k | 0 <= k < |Run(steps, c).ops| ::
              Run(steps, c).ops[k].CardWrite? && Run(steps, c).ops[k].conn == i ==>
              Run(steps, c).ops[k].cmd != [0]
  {
    hide Run, Serial, Exchanges, Mine, Answers, ClientDo, LinkInv;
    LinkOf(steps, c, i);
    var s := Run(steps, c);
    var l, v, mine := s.links[i], ViewOf(s, i), History(s, i);
    if a.Finish? {
      R.FinishLogs(l, v, mine, c);
    } else {
      ClientGivesUp(l, v, mine, c);
    }
    NoZeroAtCard(steps, c);
  }

  // Any exchange in the history shows up in the part that belongs to its connection.
  lemma {:induction false} MineContains(ex: seq<Exchange>, k: nat)
    requires k < |ex|
    ensures ex[k] in Mine(ex, ex[k].conn)
  {
    if k < |ex| - 1 {
      MineContains(ex[..|ex| - 1], k);
    }
  }

  lemma {:induction false} NoZeroAtCard(steps: seq<Step>, c: Config)
    requires c.Valid()
    ensures var s := Run(steps, c);
            forall k | 0 <= k < |s.ops| ::
              s.ops[k].CardWrite? && IsClient(s, s.ops[k].conn) ==> s.ops[k].cmd != [0]
  {
    hide Run, Mine, Exchanges, ConnInv;
    RunKeeps(steps, c);
    var s := Run(steps, c);
    forall k | 0 <= k < |s.ops| && s.ops[k].CardWrite? && IsClient(s, s.ops[k].conn)
      ensures s.ops[k].cmd != [0]
    {
      WriteWasAsked(s, c, k);
    }
  }

  // A command written to the reader for a client was sent by that client.
  lemma WriteWasAsked(s: State, c: Config, k: nat)
    requires Inv(s, c) && k < |s.ops| && s.ops[k].CardWrite?
    ensures s.ops[k].conn < |s.links|
    ensures !s.links[s.ops[k].conn].stranger ==>
              s.ops[k].cmd in s.links[s.ops[k].conn].asked && s.ops[k].cmd != [0]
  {
    hide Mine, LinkInv, StrangerInv;
    assert SerialAt(s.ops, k);
    var ex, i := Exchanges(s.ops), s.ops[k].conn;
    if k == |s.ops| - 1 {
      var l := s.links[i];
      assert ConnInv(l, ViewOf(s, i), History(s, i), c);
      if !l.stranger {
        AtCardWasAsked(l, ViewOf(s, i), History(s, i), c);
      }
    } else {
      assert SerialAt(s.ops, k + 1);
      assert ex[k / 2].cmd == s.ops[k].cmd && ex[k / 2].conn == i;
      MineContains(ex, k / 2);
      assert ConnInv(s.links[i], ViewOf(s, i), History(s, i), c);
      if !s.links[i].stranger {
        ExecutedWasAsked(s.links[i], ViewOf(s, i), History(s, i), c, ex[k / 2]);
      }
    }
  }

  lemma AtCardWasAsked(l: Link, v: View, mine: seq<Exchange>, c: Config)
    requires LinkInv(l, v, mine, c) && v.AtCard?
    ensures v.cmd in l.asked && v.cmd != [0]
  {
    hide PrepareAuth, PrepareAuthReply, PrepareResetRequest, PrepareResetReply, PrepareCmdRequest, PrepareCmdReply;
    hide Answers, OneAtr, Gate;
    assert v.cmd == l.asked[|l.asked| - 1];
  }

  lemma ExecutedWasAsked(l: Link, v: View, mine: seq<Exchange>, c: Config, x: Exchange)
    requires LinkInv(l, v, mine, c) && x in mine
    ensures x.cmd in l.asked && x.cmd != [0]
  {
    hide Answers, OneAtr, Gate, Transit, Orphaned, Local;
    var m :| 0 <= m < |mine| && mine[m] == x;
    assert l.asked[m] == x.cmd;
  }
}
