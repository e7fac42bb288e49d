// Season and PSCProxyClient as classes, proved against the reset line and the client model.
module ClientCode {
  import opened Bytes
  import opened Account
  import opened Packets
  import opened Framing
  import opened Sockets
  import opened ResetLine
  import opened ClientModel
  import opened SystemCalls
  import P = Protocol
  import CM = ClientMachine
  import Code = ProtocolCode

  const MAX_BUFFER_LEN: nat := 512

  // The emulator on its serial port. The bytes on the line, the level of the reset line and the
  // answers of select and poll are up to the set-top box; they are recorded.
  class Season {
    var rstRequested: bool
    var prevCARLineUp: bool
    var line: Data               // what the box sends and has not been read yet
    var written: seq<Data>       // what has been written to the box, one entry a call
    ghost var samples: seq<bool> // the levels of the reset line that were sampled
    ghost var avails: seq<bool>  // the answers of select
    ghost var polls: seq<bool>   // the answers of poll while reading
    ghost var lost: seq<Data>    // what was flushed away
    ghost var results: seq<Data> // the results of reading, echoes included

    constructor (line: Data)
      ensures Hears() == START && this.line == line && written == []
      ensures samples == [] && avails == [] && polls == [] && lost == [] && results == []
    {
      rstRequested, prevCARLineUp := false, true;
      this.line, written := line, [];
      samples, avails, polls, lost, results := [], [], [], [], [];
    }

    ghost function Hears(): Ears
      reads this
    {
      Ears(rstRequested, prevCARLineUp)
    }

    method IsCARLineUp() returns (up: bool)
      modifies this`samples
      ensures samples == old(samples) + [up]
    {
      up := *;
      samples := samples + [up];
    }

    method Tick() returns (ghost up: bool)
      modifies this`rstRequested, this`prevCARLineUp, this`samples
      ensures samples == old(samples) + [up]
      ensures Hears() == Sample(old(Hears()), up)
    {
      var lineUp := IsCARLineUp();
      if lineUp && !prevCARLineUp {
        rstRequested := true;
      }
      prevCARLineUp := lineUp;
      up := lineUp;
    }

    method ResetRequested() returns (r: bool)
      modifies this`rstRequested
      ensures r == old(Hears()).pending && Hears() == Poll(old(Hears()))
    {
      r := rstRequested;
      rstRequested := false;
    }

    method ReadDataAvail() returns (avail: bool)
      modifies this`avails
      ensures avails == old(avails) + [avail]
    {
      avail := *;
      avails := avails + [avail];
    }

    // ::poll on the line: ready only if a byte has come.
    method PollLine() returns (ready: bool)
      modifies this`polls
      ensures polls == old(polls) + [ready] && (ready ==> line != [])
    {
      ready := *;
      ready := ready && line != [];
      polls := polls + [ready];
    }

    // Reads until poll says that the line is silent, and never more than 512 bytes.
    method Read() returns (result: Data)
      modifies this`line, this`polls, this`results
      ensures old(line) == result + line && results == old(results) + [result]
      ensures |result| <= 512
      ensures polls == old(polls) + seq(|result|, _ => true) + (if |result| < 512 then [false] else [])
    {
      result := [];
      var i := 0;
      while i < MAX_BUFFER_LEN
        invariant 0 <= i <= MAX_BUFFER_LEN && |result| == i && old(line) == result + line
        invariant results == old(results) && polls == old(polls) + seq(|result|, _ => true)
      {
        var ready := PollLine();
        if !ready {
          results := results + [result];
          return;
        }
        assert line == [line[0]] + line[1..];
        assert seq(i + 1, _ => true) == seq(i, _ => true) + [true];
        result := result + [line[0]];
        line := line[1..];
        i := i + 1;
      }
      results := results + [result];
    }

    // tcflush: some of the bytes that have not been read are lost.
    method Flush()
      modifies this`line, this`lost
      ensures exists gone :: lost == old(lost) + [gone] && old(line) == gone + line
    {
      var n := *;
      if n < 0 || n > |line| {
        n := 0;
      }
      assert line == line[..n] + line[n..];
      lost := lost + [line[..n]];
      line := line[n..];
    }

    // The port is flushed first, which loses what has arrived and was not read. The line echoes what
    // is written; the echo is read back and dropped.
    method Write(data: Data)
      modifies this`line, this`written, this`polls, this`results, this`lost
      ensures written == old(written) + [data]
      ensures exists gone, echo ::
                && lost == old(lost) + [gone] && results == old(results) + [echo]
                && old(line) == gone + echo + line
    {
      ghost var whole := line;
      Flush();
      ghost var gone :| lost == old(lost) + [gone] && whole == gone + line;
      written := written + [data];
      var echo := Read();
      assert whole == gone + echo + line;
    }
  }

  class PSCProxyClient {
    const emulator: Season
    const clientSocket: Endpoint
    const user: Data
    const pass: Data
    var state: CM.State
    var atr: Data

    constructor (emulator: Season, clientSocket: Endpoint)
      ensures Valid() && state == CM.Init && atr == []
      ensures this.emulator == emulator && this.clientSocket == clientSocket && user == USER && pass == PASS
    {
      this.emulator, this.clientSocket, this.user, this.pass := emulator, clientSocket, USER, PASS;
      state, atr := CM.Init, [];
    }

    ghost predicate Valid()
    {
      |user| + |pass| + 6 <= 0xFFFF
    }

    ghost function Abs(): Core
      reads this, emulator
    {
      Core(user, pass, state, atr, emulator.Hears())
    }

    // What is read from the emulator: the data of this tick if there is any, all of what the
    // emulator's read gives, and an echo if something is handed on.
    twostate predicate Listened(i: Input, o: Output, takesData: bool)
      reads emulator
    {
      var data := if takesData && i.data.Some? then [i.data.value] else [];
      && old(emulator.results) + data <= emulator.results
      && |emulator.results| == |old(emulator.results)| + |data| + (if o.handed.Some? then 1 else 0)
      && (data != [] ==> data[0] <= old(emulator.line))
      && (data != [] && o.handed.None? ==> old(emulator.line) == data[0] + emulator.line)
      && (data == [] && o.handed.None? ==> emulator.line == old(emulator.line))
    }

    // What a tick of the model with this output does to the client, its socket and its emulator.
    twostate predicate Became(i: Input, o: Output)
      reads this, emulator
    {
      && i.Valid()
      && Abs() == o.core
      && emulator.written == old(emulator.written) + (if o.handed.Some? then [o.handed.value] else [])
    }

    // What it does to the socket: a client that waits for an entry or for the ATR looks first, and
    // any other writes first and then reads the answer to what it wrote.
    ghost predicate Talked(st: CM.State, i: Input, o: Output, awaits: bool, before: Net, now: Net)
    {
      if st == CM.AuthRequested || st == CM.AwaitingAtr then
        Served(before, now, i.newData, o.took, o.sent, clientSocket.takesWhole)
      else
        Asked(before, now, o.sent, awaits, o.took, clientSocket.takesWhole)
    }

    // One tick does what the model does on input i.
    twostate predicate Did(i: Input)
      reads this, emulator, clientSocket
    {
      var c := old(Abs());
      var o, resets := ClientModel.Tick(c, i), TakesResetBranch(c, i);
      var idle := c.state == CM.Idle;
      && Became(i, o) && Listened(i, o, idle && !resets)
      && Talked(c.state, i, o, resets || (idle && i.data.Some?), old(clientSocket.Now()), clientSocket.Now())
      && emulator.samples == old(emulator.samples) + (if idle then [i.line] else [])
      && emulator.avails == old(emulator.avails) + (if idle && !resets then [i.data.Some?] else [])
    }

    method TickOnce() returns (go: bool, ghost i: Input)
      requires Valid()
      modifies this`state, this`atr, emulator, clientSocket
      ensures Did(i) && go == (old(state) != CM.Closed)
    {
      hide P.Frame, Served, Asked, IdleTick;
      i := Input(false, [], false, None);
      go := true;
      match state
      case Init => Authorize();
      case AuthRequested => i := CheckAuthReply();
      case Authorized => RequestATR();
      case AwaitingAtr => i := CacheATR();
      case Idle =>
        ghost var up := emulator.Tick();
        ghost var sampled := Abs();
        i := HandleEmulatorRequests();
        i := i.(line := up);
        IdleAfterSample(old(Abs()), sampled, i);
      case Closed => go := false;
        DoesNothing(clientSocket.Now(), clientSocket.takesWhole);
        assert emulator.written + [] == emulator.written && emulator.results + [] == emulator.results;
    }

    method Authorize()
      requires Valid() && state == CM.Init
      modifies this`state, clientSocket`outgoing, clientSocket`calls
      ensures Did(Input(false, [], false, None))
    {
      hide P.Frame, OnWire, Asked;
      ghost var n0 := clientSocket.Now();
      var data := new PacketData();
      var defined := Code.PrepareAuth(data, user, pass);
      ghost var request := data.Bytes();
      var written, takes := Write(clientSocket, data);
      state := CM.AuthRequested;
      OnlyWrites(n0, clientSocket.Now(), request, clientSocket.takesWhole);
    }

    method CheckAuthReply() returns (ghost i: Input)
      requires state == CM.AuthRequested
      modifies this`state, clientSocket
      ensures Did(i)
    {
      hide P.Frame, P.ParseAuthReply, OnWire, Served, PacketRan, Failed;
      i := Input(false, [], false, None);
      ghost var n0 := clientSocket.Now();
      var newData := NewDataInSocket(clientSocket);
      ghost var answer :| clientSocket.calls == n0.calls + [Selected(answer)] && (newData <==> answer != 0);
      if newData {
        var data := new PacketData();
        var rc, taken := ReadPacket(clientSocket, data);
        ghost var n1 := clientSocket.Now();
        SilentAfterwards(n1, clientSocket.takesWhole);
        LooksReadsWrites(n0, n1, n1, answer, taken, [], clientSocket.takesWhole);
        var ok := Code.ParseAuthReply(data);
        state := if ok then CM.Authorized else CM.Closed;
        i := Input(true, taken, false, None);
      } else {
        LooksInVain(n0, clientSocket.Now(), clientSocket.takesWhole);
      }
    }

    method RequestATR()
      requires state == CM.Authorized
      modifies this`state, clientSocket`outgoing, clientSocket`calls
      ensures Did(Input(false, [], false, None))
    {
      hide P.Frame, OnWire, Asked;
      ghost var n0 := clientSocket.Now();
      var data := new PacketData();
      Code.PrepareResetRequest(data);
      RequestNotEmpty();
      ghost var request := data.Bytes();
      var written, takes := Write(clientSocket, data);
      state := if 0 < written then CM.AwaitingAtr else CM.Closed;
      OnlyWrites(n0, clientSocket.Now(), request, clientSocket.takesWhole);
    }

    method CacheATR() returns (ghost i: Input)
      requires state == CM.AwaitingAtr
      modifies this`state, this`atr, clientSocket
      ensures Did(i)
    {
      hide P.Frame, P.ParseResetReply, OnWire, Served, PacketRan, Failed;
      i := Input(false, [], false, None);
      ghost var n0 := clientSocket.Now();
      var newData := NewDataInSocket(clientSocket);
      ghost var answer :| clientSocket.calls == n0.calls + [Selected(answer)] && (newData <==> answer != 0);
      if newData {
        var data := new PacketData();
        var rc, taken := ReadPacket(clientSocket, data);
        ghost var n1 := clientSocket.Now();
        SilentAfterwards(n1, clientSocket.takesWhole);
        LooksReadsWrites(n0, n1, n1, answer, taken, [], clientSocket.takesWhole);
        i := Input(true, taken, false, None);
        if 0 > rc {
          state := CM.Closed;
          return;
        }
        var ok;
        ok, atr := Code.ParseResetReply(data, atr);
        state := if ok then CM.Idle else CM.Closed;
      } else {
        LooksInVain(n0, clientSocket.Now(), clientSocket.takesWhole);
      }
    }

    // The same for handleEmulatorRequests, once the emulator has been ticked.
    twostate predicate Handled(i: Input)
      reads this, emulator, clientSocket
    {
      var c := old(Abs());
      var o, resets := IdleTick(c, i), c.ears.pending;
      && Became(i, o) && Listened(i, o, !resets)
      && Talked(c.state, i, o, resets || i.data.Some?, old(clientSocket.Now()), clientSocket.Now())
      && emulator.samples == old(emulator.samples)
      && emulator.avails == old(emulator.avails) + (if !resets then [i.data.Some?] else [])
    }

    method HandleEmulatorRequests() returns (ghost i: Input)
      requires state == CM.Idle
      modifies this`state, emulator, clientSocket
      ensures Handled(i)
    {
      hide P.Frame, P.ParseResetReply, P.ParseCmdReply, IsPacket, Asked;
      i := Input(false, [], false, None);
      DoesNothing(clientSocket.Now(), clientSocket.takesWhole);
      var reset := emulator.ResetRequested();
      if reset {
        i := HandleReset();
        return;
      }
      var avail := emulator.ReadDataAvail();
      if avail {
        i := HandleCommand();
      }
    }

    // The two lines that both branches share: the request is written, and the answer is read into
    // the packet that still holds it.
    method Exchange(data: PacketData) returns (ghost taken: Data)
      requires data.Valid()
      modifies clientSocket, data
      ensures data.Valid() && |taken| <= Need(taken)
      ensures data.Bytes() == ResultOf(taken).Left(old(data.Bytes()))
      ensures Asked(old(clientSocket.Now()), clientSocket.Now(), old(data.Bytes()), true, taken, clientSocket.takesWhole)
    {
      hide OnWire, Asked, PacketRan, Failed, LoopTakes, Echo, Sum, Need, ResultOf, ReadResult.Left;
      ghost var n0, request := clientSocket.Now(), data.Bytes();
      var written, takes := Write(clientSocket, data);
      ghost var n1 := clientSocket.Now();
      var rc;
      rc, taken := ReadPacket(clientSocket, data);
      WritesReads(n0, n1, clientSocket.Now(), request, taken, clientSocket.takesWhole);
    }

    // The reset branch.
    method HandleReset() returns (ghost i: Input)
      requires state == CM.Idle
      modifies this`state, emulator, clientSocket
      ensures i.Valid() && i.data.None?
      ensures emulator.samples == old(emulator.samples) && emulator.avails == old(emulator.avails)
      ensures var handed := CM.ResetAnswer(i.R());
              var after := if handed.Some? then old(Abs()) else Closed(old(Abs()));
              var o := Output(after, i.taken, P.PrepareResetRequest(), handed);
              Became(i, o) && Listened(i, o, false)
              && Asked(old(clientSocket.Now()), clientSocket.Now(), o.sent, true, o.took, clientSocket.takesWhole)
    {
      hide P.Frame, P.ParseResetReply, IsPacket, Need, Asked;
      var data := new PacketData();
      Code.PrepareResetRequest(data);
      ghost var taken := Exchange(data);
      i := Input(false, taken, false, None);
      var ok, answer := Code.ParseResetReply(data, []);
      if !ok {
        state := CM.Closed;
        return;
      }
      emulator.Write(answer);
    }

    // A lone zero byte stands for a reset.
    method PrepareRequest(data: PacketData, emulatorData: Data)
      requires data.Valid() && |emulatorData| <= 512
      modifies data
      ensures data.Valid() && fresh(data.data) && data.Bytes() == CM.RequestFor(emulatorData)
    {
      hide P.Frame;
      var rstReq := false;
      if 1 == |emulatorData| {
        if 0 == emulatorData[0] {
          rstReq := true;
        }
      }
      assert rstReq == (emulatorData == [0]);
      if rstReq {
        Code.PrepareResetRequest(data);
      } else {
        var defined := Code.PrepareCmdRequest(data, emulatorData);
      }
    }

    // The data branch.
    method HandleCommand() returns (ghost i: Input)
      requires state == CM.Idle
      modifies this`state, emulator, clientSocket
      ensures i.Valid() && i.data.Some?
      ensures emulator.samples == old(emulator.samples) && emulator.avails == old(emulator.avails)
      ensures var handed := CM.CommandAnswer(i.data.value, i.R());
              var after := if handed.Some? then old(Abs()) else Closed(old(Abs()));
              var o := Output(after, i.taken, CM.RequestFor(i.data.value), handed);
              Became(i, o) && Listened(i, o, true)
              && Asked(old(clientSocket.Now()), clientSocket.Now(), o.sent, true, o.took, clientSocket.takesWhole)
    {
      hide P.Frame, P.ParseCmdReply, IsPacket, Need, Asked, CM.RequestFor, ResultOf;
      var data := new PacketData();
      var emulatorData := emulator.Read();
      ghost var cmd := emulatorData;
      PrepareRequest(data, emulatorData);
      ghost var taken := Exchange(data);
      i := Input(false, taken, false, Some(cmd));
      var ok;
      ok, emulatorData := Code.ParseCmdReply(data, emulatorData);
      if !ok {
        state := CM.Closed;
        return;
      }
      emulator.Write(emulatorData);
    }
  }

  lemma RequestNotEmpty()
    ensures |P.PrepareResetRequest()| > 0
  {
  }

  lemma IdleAfterSample(before: Core, sampled: Core, i: Input)
    requires before.state == CM.Idle && sampled == before.(ears := Sample(before.ears, i.line))
    ensures ClientModel.Tick(before, i) == IdleTick(sampled, i)
    ensures forall up :: IdleTick(sampled, i.(line := up)) == IdleTick(sampled, i)
  {
    hide P.Frame;
  }
}
