// The card emulator's reset line: Season::tick and Season::resetRequested.
module ResetLine {
  // Whether a reset is pending, and the level of the line when it was last sampled.
  datatype Ears = Ears(pending: bool, up: bool)

  const START := Ears(false, true)

  function Sample(e: Ears, line: bool): Ears {
    Ears(e.pending || (line && !e.up), line)
  }

  function Poll(e: Ears): Ears {
    e.(pending := false)
  }

  // The line rises at sample k. It counts as high before the first sample.
  predicate RisesAt(lines: seq<bool>, k: nat)
    requires k < |lines|
  {
    lines[k] && k > 0 && !lines[k - 1]
  }

  // What a caller hears that polls once after every sample, as an idle client does.
  function Heard(lines: seq<bool>): seq<bool> {
    if lines == [] then []
    else
      var init := lines[..|lines| - 1];
      Heard(init) + [Sample(AfterAll(init), lines[|lines| - 1]).pending]
  }

  function AfterAll(lines: seq<bool>): Ears {
    if lines == [] then START else Poll(Sample(AfterAll(lines[..|lines| - 1]), lines[|lines| - 1]))
  }

  // It hears one request for each rising edge, at the very sample where the line rises.
  lemma {:induction false} OneRequestPerEdge(lines: seq<bool>)
    ensures |Heard(lines)| == |lines|
    ensures forall k | 0 <= k < |lines| :: Heard(lines)[k] == RisesAt(lines, k)
    ensures AfterAll(lines) == Ears(false, lines == [] || lines[|lines| - 1])
  {
    if lines != [] {
      var init := lines[..|lines| - 1];
      OneRequestPerEdge(init);
      assert forall k | 0 <= k < |init| :: RisesAt(init, k) == RisesAt(lines, k);
    }
  }

  datatype Event = Sampled(line: bool) | Polled

  function Run(events: seq<Event>): Ears {
    if events == [] then START
    else
      var e := Run(events[..|events| - 1]);
      match events[|events| - 1]
      case Sampled(line) => Sample(e, line)
      case Polled => Poll(e)
  }

  // The requests answered with yes, and the rising edges, in any interleaving.
  function Yes(events: seq<Event>): nat {
    if events == [] then 0
    else
      var init := events[..|events| - 1];
      Yes(init) + (if events[|events| - 1].Polled? && Run(init).pending then 1 else 0)
  }

  function Edges(events: seq<Event>): nat {
    if events == [] then 0
    else
      var init, last := events[..|events| - 1], events[|events| - 1];
      Edges(init) + (if last.Sampled? && last.line && !Run(init).up then 1 else 0)
  }

  // However samples and polls interleave, no request is ever invented, and nothing is pending
  // unless an edge has not been reported yet.
  lemma {:induction false} NoRequestInvented(events: seq<Event>)
    ensures Yes(events) + (if Run(events).pending then 1 else 0) <= Edges(events)
  {
    if events != [] {
      NoRequestInvented(events[..|events| - 1]);
    }
  }
}

// One tick of PSCProxyClient as a function of what it meets.
module ClientModel {
  import opened Bytes
  import opened Protocol
  import opened Framing
  import CM = ClientMachine
  import opened ResetLine

  datatype Core = Core(user: Data, pass: Data, state: CM.State, atr: Data, ears: Ears)

  // What a tick finds: whether select reports data, the bytes its one read takes before it ends, the
  // level of the reset line, and the data the emulator has, if any.
  datatype Input = Input(newData: bool, taken: Data, line: bool, data: Option<Data>) {
    predicate Valid() {
      |taken| <= Need(taken) && (data.Some? ==> |data.value| <= MAX_PAYLOAD)
    }

    function R(): ReadResult {
      ResultOf(taken)
    }
  }

  // The new fields, the bytes taken off the stream, the bytes sent, and what the emulator is handed.
  datatype Output = Output(core: Core, took: Data, sent: Data, handed: Option<Data>)

  function Closed(c: Core): Core {
    c.(state := CM.Closed)
  }

  function Tick(c: Core, i: Input): Output {
    match c.state
    case Init => Output(c.(state := CM.AuthRequested), [], PrepareAuth(c.user, c.pass), None)
    case AuthRequested =>
      if !i.newData then Output(c, [], [], None)
      else Output(c.(state := CM.AfterAuthReply(i.R())), i.taken, [], None)
    case Authorized => Output(c.(state := CM.AwaitingAtr), [], PrepareResetRequest(), None)
    case AwaitingAtr =>
      if !i.newData then Output(c, [], [], None)
      else
        (match CM.AtrToCache(i.R())
         case Some(atr) => Output(c.(state := CM.Idle, atr := atr), i.taken, [], None)
         case None => Output(Closed(c), i.taken, [], None))
    case Idle => IdleTick(c.(ears := Sample(c.ears, i.line)), i)
    case Closed => Output(c, [], [], None)
  }

  // A pending reset goes before the emulator's data, which then waits for a later tick.
  function IdleTick(c: Core, i: Input): Output {
    var d := c.(ears := Poll(c.ears));
    if c.ears.pending then
      var handed := CM.ResetAnswer(i.R());
      Output(if handed.Some? then d else Closed(d), i.taken, PrepareResetRequest(), handed)
    else match i.data
    case None => Output(d, [], [], None)
    case Some(cmd) =>
      var handed := CM.CommandAnswer(cmd, i.R());
      Output(if handed.Some? then d else Closed(d), i.taken, CM.RequestFor(cmd), handed)
  }

  function CoreAfter(start: Core, inputs: seq<Input>): Core {
    if inputs == [] then start
    else Tick(CoreAfter(start, inputs[..|inputs| - 1]), inputs[|inputs| - 1]).core
  }

  // The line is sampled in the ticks that start idle, and in no others.
  function Samples(start: Core, inputs: seq<Input>): seq<bool> {
    if inputs == [] then []
    else
      var init, last := inputs[..|inputs| - 1], inputs[|inputs| - 1];
      Samples(start, init) + (if CoreAfter(start, init).state == CM.Idle then [last.line] else [])
  }

  predicate TakesResetBranch(c: Core, i: Input) {
    c.state == CM.Idle && Sample(c.ears, i.line).pending
  }

  // The ticks of a run that take the reset branch.
  function Resets(start: Core, inputs: seq<Input>): nat {
    if inputs == [] then 0
    else
      var init, last := inputs[..|inputs| - 1], inputs[|inputs| - 1];
      Resets(start, init) + (if TakesResetBranch(CoreAfter(start, init), last) then 1 else 0)
  }

  function RisingEdges(lines: seq<bool>): nat {
    if lines == [] then 0
    else RisingEdges(lines[..|lines| - 1]) + (if RisesAt(lines, |lines| - 1) then 1 else 0)
  }

  lemma IdleTickPolls(c: Core, i: Input)
    requires c.state == CM.Idle
    ensures Tick(c, i).core.ears == Poll(Sample(c.ears, i.line))
    ensures TakesResetBranch(c, i) ==>
              Tick(c, i).sent == PrepareResetRequest() && Tick(c, i).handed == CM.ResetAnswer(i.R())
    ensures !TakesResetBranch(c, i) ==>
              Tick(c, i).sent == if i.data.Some? then CM.RequestFor(i.data.value) else []
  {
    hide PrepareResetRequest, CM.ResetAnswer, CM.CommandAnswer, CM.RequestFor;
  }

  lemma OtherTicksDoNotListen(c: Core, i: Input)
    requires c.state != CM.Idle
    ensures Tick(c, i).core.ears == c.ears
  {
    hide PrepareAuth, PrepareResetRequest, CM.AfterAuthReply, CM.AtrToCache;
  }

  lemma {:induction false} EarsOfRun(start: Core, inputs: seq<Input>)
    requires start.ears == START
    ensures CoreAfter(start, inputs).ears == AfterAll(Samples(start, inputs))
  {
    hide Tick;
    if inputs != [] {
      var init, last := inputs[..|inputs| - 1], inputs[|inputs| - 1];
      var c := CoreAfter(start, init);
      EarsOfRun(start, init);
      if c.state == CM.Idle {
        IdleTickPolls(c, last);
        assert Samples(start, inputs)[..|Samples(start, init)|] == Samples(start, init);
      } else {
        OtherTicksDoNotListen(c, last);
        assert Samples(start, inputs) == Samples(start, init);
      }
    }
  }

  // Over any run of any client whose emulator starts afresh, whatever states it goes through, the
  // reset requests sent by the reset branch are the rising edges of the line as sampled, and each is
  // sent at the tick where the line rises, before any data.
  lemma {:induction false} ResetsAreEdges(start: Core, inputs: seq<Input>)
    requires start.ears == START
    ensures Resets(start, inputs) == RisingEdges(Samples(start, inputs))
    ensures inputs != [] ==>
              var c, lines := CoreAfter(start, inputs[..|inputs| - 1]), Samples(start, inputs);
              TakesResetBranch(c, inputs[|inputs| - 1]) <==>
                c.state == CM.Idle && lines != [] && RisesAt(lines, |lines| - 1)
  {
    hide Tick, RisesAt;
    if inputs != [] {
      var init, last := inputs[..|inputs| - 1], inputs[|inputs| - 1];
      var lines, before := Samples(start, inputs), Samples(start, init);
      ResetsAreEdges(start, init);
      EarsOfRun(start, init);
      if CoreAfter(start, init).state == CM.Idle {
        assert lines[..|before|] == before;
        LastHeard(before, last.line);
      } else {
        assert lines == before;
      }
    }
  }

  lemma {:induction false} LastHeard(lines: seq<bool>, line: bool)
    ensures Sample(AfterAll(lines), line).pending == RisesAt(lines + [line], |lines|)
  {
    var all := lines + [line];
    OneRequestPerEdge(lines);
    OneRequestPerEdge(all);
    assert all[..|lines|] == lines;
    assert Heard(all)[|lines|] == Sample(AfterAll(lines), line).pending;
  }
}
