// The system PSCProxy stands in for: every emulator wired straight to the one reader, its requests
// served one at a time. There are no packets, no queues and no sessions here. Besides the emulators
// there may be strangers, who get the reader to execute whatever they have been let in to ask for.
module Wired {
  import opened Bytes
  import opened System

  datatype Slot = Slot(stranger: bool, asked: seq<Data>, out: seq<EmuWrite>)

  datatype State = Wiring(slots: seq<Slot>, history: seq<Exchange>)

  datatype Act =
    | Plug(stranger: bool)
    | Ask(i: nat, cmd: Data)
    | Serve(i: nat, reply: Data)
    | Deliver(i: nat)
    | Reset(i: nat)
    | Foreign(i: nat, cmd: Data, reply: Data)

  // The number of an emulator's commands that the reader has executed.
  function Served(w: State, i: nat): nat {
    |Mine(w.history, i)|
  }

  function Delivered(w: State, i: nat): nat
    requires i < |w.slots|
  {
    |Answers(w.slots[i].out)|
  }

  // An emulator asks, and is reset, only when nothing of its own is pending.
  predicate Idle(w: State, i: nat)
    requires i < |w.slots|
  {
    |w.slots[i].asked| == Served(w, i) == Delivered(w, i)
  }

  predicate Emulator(w: State, i: nat) {
    i < |w.slots| && !w.slots[i].stranger
  }

  predicate Can(w: State, a: Act) {
    match a
    case Plug(_) => true
    case Ask(i, cmd) => Emulator(w, i) && Idle(w, i) && cmd != [0]
    case Serve(i, reply) => Emulator(w, i) && |w.slots[i].asked| == Served(w, i) + 1
    case Deliver(i) => Emulator(w, i) && Served(w, i) == Delivered(w, i) + 1
    case Reset(i) => Emulator(w, i) && Idle(w, i)
    case Foreign(i, _, _) => i < |w.slots| && w.slots[i].stranger
  }

  function Do(w: State, a: Act, atr: Data): State
    requires Can(w, a)
  {
    match a
    case Plug(stranger) => w.(slots := w.slots + [Slot(stranger, [], [])])
    case Ask(i, cmd) => w.(slots := w.slots[i := w.slots[i].(asked := w.slots[i].asked + [cmd])])
    case Serve(i, reply) =>
      w.(history := w.history + [Exchange(i, w.slots[i].asked[Served(w, i)], reply)])
    case Deliver(i) =>
      // The emulator is handed its command back in front of the answer: see ParseCmdReply.
      var x := Mine(w.history, i)[Delivered(w, i)];
      w.(slots := w.slots[i := w.slots[i].(out := w.slots[i].out + [Answer(x.cmd + x.reply)])])
    case Reset(i) => w.(slots := w.slots[i := w.slots[i].(out := w.slots[i].out + [Atr(atr)])])
    case Foreign(i, cmd, reply) => w.(history := w.history + [Exchange(i, cmd, reply)])
  }

  const START := Wiring([], [])

  // Every act is possible when its turn comes.
  predicate Legal(acts: seq<Act>, atr: Data) {
    acts == [] || (Legal(acts[..|acts| - 1], atr) && Can(Run(acts[..|acts| - 1], atr), acts[|acts| - 1]))
  }

  function Run(acts: seq<Act>, atr: Data): State {
    if acts == [] then START
    else
      var w, a := Run(acts[..|acts| - 1], atr), acts[|acts| - 1];
      if Can(w, a) then Do(w, a, atr) else w
  }

  lemma {:induction false} Extend(acts: seq<Act>, a: Act, atr: Data)
    requires Legal(acts, atr) && Can(Run(acts, atr), a)
    ensures Legal(acts + [a], atr)
    ensures Run(acts + [a], atr) == Do(Run(acts, atr), a, atr)
  {
    hide Can, Do;
    assert (acts + [a])[..|acts|] == acts;
  }
}

// Every run of the composed system is a run of the wired one.
module Refinement {
  import opened Bytes
  import opened Protocol
  import opened LockStep
  import opened Reachable
  import opened System
  import W = Wired
  import CM = ClientMachine

  // What an observer at the emulators and at the reader sees.
  function Seen(s: State): W.State
    requires Serial(s.ops)
  {
    W.Wiring(seq(|s.links|, i requires 0 <= i < |s.links| => SlotOf(s.links[i])), Exchanges(s.ops))
  }

  function SlotOf(l: Link): W.Slot {
    W.Slot(l.stranger, l.asked, l.out)
  }

  // The visible act a step amounts to, if any.
  function Image(s: State, step: Step): Option<W.Act>
    requires Can(s, step)
  {
    match step
    case Connect(_, _) => Some(W.Plug(false))
    case Intrude => Some(W.Plug(true))
    case Client(i, EmulatorCommand(cmd)) => if cmd == [0] then None else Some(W.Ask(i, cmd))
    case Client(i, Finish) =>
      var purpose := s.links[i].pc.purpose;
      if purpose.ForReset? then Some(W.Reset(i))
      else if purpose.ForCommand? && purpose.cmd != [0] then Some(W.Deliver(i))
      else None
    case Server(i, CardAnswers(reply)) =>
      Some(if s.links[i].stranger then W.Foreign(i, s.pc.view.cmd, reply) else W.Serve(i, reply))
    case _ => None
  }

  // The logs after a completed read.
  lemma FinishLogs(l: Link, v: View, mine: seq<Exchange>, c: Config)
    requires l.pc.Reading?
    requires c.Valid() && LinkInv(l, v, mine, c) && ClientCan(l, Finish)
    ensures ClientDo(l, Finish).asked == l.asked && ClientDo(l, Finish).stranger == l.stranger
    ensures match l.pc.purpose
            case ForReset => Settled(l, mine) && ClientDo(l, Finish).out == l.out + [Atr(c.atr)]
            case ForCommand(cmd) =>
              if cmd == [0] then ClientDo(l, Finish).out == l.out && ClientDo(l, Finish).state == CM.Closed
              else |mine| == |Answers(l.out)| + 1 && mine[|mine| - 1].cmd == cmd &&
                   ClientDo(l, Finish).out == l.out + [Answer(cmd + mine[|mine| - 1].reply)]
            case _ => ClientDo(l, Finish).out == l.out
  {
    hide LinkInv, ClientDo, Fine;
    FinishOutcome(l, v, mine, c);
    ReadCompletes(l, v, mine, c);
    var w := WireOf(l, v);
    assert Fine(Skeleton(l), w, mine, c) by { BytesSettled(l, v, mine, c); }
    assert w.down == l.pc.got && l.pc.got != [];
    LogsOfReader(Skeleton(l), w, mine, c);
  }

  lemma BytesSettled(l: Link, v: View, mine: seq<Exchange>, c: Config)
    requires LinkInv(l, v, mine, c)
    ensures Fine(Skeleton(l), WireOf(l, v), mine, c) && !l.stranger
  {
  }

  // What a client that has something to read has asked for, and what has become of it.
  lemma LogsOfReader(l: Link, w: Wire, mine: seq<Exchange>, c: Config)
    requires Fine(l, w, mine, c) && l.pc.Reading? && w.down != []
    ensures match l.pc.purpose
            case ForReset => Settled(l, mine)
            case ForCommand(cmd) =>
              cmd != [0] ==> |mine| == |Answers(l.out)| + 1 && mine[|mine| - 1].cmd == cmd
            case _ => true
  {
    hide PrepareAuth, PrepareAuthReply, PrepareResetRequest, PrepareResetReply, PrepareCmdRequest, PrepareCmdReply;
    hide Answers, OneAtr, Gate;
  }

  // The logs after any other client step.
  lemma OtherLogs(l: Link, v: View, mine: seq<Exchange>, a: ClientAct, c: Config)
    requires LinkInv(l, v, mine, c) && ClientCan(l, a) && !a.Finish?
    ensures ClientDo(l, a).out == l.out && ClientDo(l, a).stranger == l.stranger
    ensures if a.EmulatorCommand? && a.cmd != [0]
            then Settled(l, mine) && ClientDo(l, a).asked == l.asked + [a.cmd]
            else ClientDo(l, a).asked == l.asked
  {
    hide Fine, PrepareAuth, PrepareResetRequest, CM.RequestFor, Resume;
    if a.GiveUp? {
      ClientGivesUp(l, v, mine, c);
    } else if a.EmulatorCommand? {
      NothingInTransit(Skeleton(l), WireOf(l, v), mine, c);
    }
  }

  lemma SeenAfter(s: State, i: nat, l: Link)
    requires Serial(s.ops) && i < |s.links|
    ensures Seen(s.(links := s.links[i := l])) == Seen(s).(slots := Seen(s).slots[i := SlotOf(l)])
    ensures Seen(s).slots[i] == SlotOf(s.links[i])
    ensures Seen(s).slots[i := Seen(s).slots[i]] == Seen(s).slots
    ensures |Seen(s).slots| == |s.links| && Seen(s).history == Exchanges(s.ops)
  {
  }

  // Each client step shows up as one act of the wired system, or not at all.
  lemma ClientImage(s: State, i: nat, a: ClientAct, c: Config)
    requires c.Valid() && Inv(s, c) && Can(s, Client(i, a))
    ensures var t := Do(s, Client(i, a), c);
            && Serial(t.ops)
            && (match Image(s, Client(i, a))
                case None => Seen(t) == Seen(s)
                case Some(w) => W.Can(Seen(s), w) && Seen(t) == W.Do(Seen(s), w, c.atr))
  {
    hide LinkInv, Serial, Exchanges, ClientDo, Answers, Mine, Seen;
    var l, v, mine := s.links[i], ViewOf(s, i), History(s, i);
    assert ConnInv(l, v, mine, c);
    SeenAfter(s, i, ClientDo(l, a));
    if a.Finish? {
      FinishLogs(l, v, mine, c);
    } else {
      OtherLogs(l, v, mine, a, c);
    }
  }

  // Server steps leave both logs alone.
  lemma ServerLogs(l: Link, conn: nat, v: View, a: ServerAct, c: Config)
    requires ServerCan(l, v, a)
    ensures SlotOf(ServerDo(l, conn, v, a, c).link) == SlotOf(l)
    ensures a.CardAnswers? ==> v.AtCard?
  {
    hide GetSize, Frame;
  }

  // The card answers the command of the connection being served.
  lemma AnswerImage(s: State, i: nat, reply: Data, c: Config)
    requires c.Valid() && Inv(s, c) && Can(s, Server(i, CardAnswers(reply))) && ViewOf(s, i).AtCard?
    ensures var w := if s.links[i].stranger then W.Foreign(i, s.pc.view.cmd, reply) else W.Serve(i, reply);
            W.Can(Seen(s), w) &&
            W.Do(Seen(s), w, c.atr) == Seen(s).(history := Exchanges(s.ops) + [Exchange(i, s.pc.view.cmd, reply)])
  {
    hide LinkInv, Serial, Exchanges, Mine, Seen;
    var l, v, mine := s.links[i], ViewOf(s, i), History(s, i);
    assert ConnInv(l, v, mine, c);
    SeenAfter(s, i, l);
    if !l.stranger {
      ServerReplies(l, i, v, mine, reply, c);
    }
  }

  lemma ServerImage(s: State, i: nat, a: ServerAct, c: Config)
    requires c.Valid() && Inv(s, c) && Can(s, Server(i, a))
    ensures var t := Do(s, Server(i, a), c);
            && Serial(t.ops)
            && (match Image(s, Server(i, a))
                case None => Seen(t) == Seen(s)
                case Some(w) => W.Can(Seen(s), w) && Seen(t) == W.Do(Seen(s), w, c.atr))
  {
    hide ConnInv, Serial, Exchanges, ServerDo, Answers, Mine, Seen, W.Can, W.Do;
    var l, v, mine := s.links[i], ViewOf(s, i), History(s, i);
    var t := Do(s, Server(i, a), c);
    var e := ServerDo(l, i, v, a, c);
    ServerEffectOnReader(s, i, a, c);
    AnyEffect(l, i, v, mine, a, c);
    ServerLogs(l, i, v, a, c);
    SeenAfter(s, i, e.link);
    SeenDependsOn(t, s.(links := s.links[i := e.link]));
    if a.CardAnswers? {
      AnswerImage(s, i, a.reply, c);
      SerialRead(s.ops, CardRead(i, a.reply));
    } else if e.ops == [] {
      assert s.ops + e.ops == s.ops;
    } else {
      SerialWrite(s.ops, CardWrite(i, e.view.cmd));
    }
  }

  lemma SeenDependsOn(s: State, t: State)
    requires Serial(s.ops) && Serial(t.ops) && s.links == t.links
    ensures Seen(s) == Seen(t).(history := Exchanges(s.ops))
    ensures Seen(s).history == Exchanges(s.ops)
  {
  }

  lemma InjectImage(s: State, i: nat, bytes: Data, c: Config)
    requires Serial(s.ops) && Can(s, Inject(i, bytes))
    ensures Seen(Do(s, Inject(i, bytes), c)) == Seen(s)
  {
    SeenAfter(s, i, s.links[i].(up := s.links[i].up + bytes));
  }

  // Each step of the composed system is an act of the wired system or invisible.
  lemma StepImage(s: State, step: Step, c: Config)
    requires c.Valid() && Inv(s, c) && Can(s, step)
    ensures var t := Do(s, step, c);
            && Serial(t.ops)
            && (match Image(s, step)
                case None => Seen(t) == Seen(s)
                case Some(w) => W.Can(Seen(s), w) && Seen(t) == W.Do(Seen(s), w, c.atr))
  {
    hide ConnInv, Serial, Exchanges, ServerDo, ClientDo, ClientCan, ServerCan;
    match step
    case Connect(user, pass) =>
    case Intrude =>
    case Inject(i, bytes) => InjectImage(s, i, bytes, c);
    case Client(i, a) => ClientImage(s, i, a, c);
    case Server(i, a) => ServerImage(s, i, a, c);
  }

  // The visible acts of a schedule, in order.
  function Acts(steps: seq<Step>, c: Config): seq<W.Act> {
    if steps == [] then []
    else
      var before, step := steps[..|steps| - 1], steps[|steps| - 1];
      var s := Run(before, c);
      Acts(before, c) + (if Can(s, step) && Image(s, step).Some? then [Image(s, step).value] else [])
  }

  // End to end: for any number of clients and strangers, any interleaving and any fragmentation of
  // reads and writes, what the emulators and the reader see is a run of the wired system.
  lemma {:induction false} EndToEnd(steps: seq<Step>, c: Config)
    requires c.Valid()
    ensures Serial(Run(steps, c).ops)
    ensures W.Legal(Acts(steps, c), c.atr)
    ensures Seen(Run(steps, c)) == W.Run(Acts(steps, c), c.atr)
  {
    hide Inv, Can, Do, Seen, Serial, Image, W.Can, W.Do;
    RunKeeps(steps, c);
    InvIsSerial(Run(steps, c), c);
    if steps == [] {
      SeenStart(c);
    } else {
      var before, step := steps[..|steps| - 1], steps[|steps| - 1];
      var s, acts := Run(before, c), Acts(before, c);
      EndToEnd(before, c);
      RunKeeps(before, c);
      if Can(s, step) {
        StepImage(s, step, c);
        if Image(s, step).Some? {
          W.Extend(acts, Image(s, step).value, c.atr);
        } else {
          assert acts + [] == acts;
        }
      } else {
        assert acts + [] == acts;
      }
    }
  }

  lemma InvIsSerial(s: State, c: Config)
    requires Inv(s, c)
    ensures Serial(s.ops)
  {
  }

  lemma SeenStart(c: Config)
    ensures Serial(START.ops) && Seen(START) == W.START
  {
  }
}
