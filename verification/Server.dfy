// PSCProxyServer and its sessions as classes, proved against the server model.
module Server {
  import opened Bytes
  import opened Account
  import opened Packets
  import opened Framing
  import opened ServerModel
  import opened SweepModel
  import opened SystemCalls
  import P = Protocol
  import SM = SessionMachine
  import Code = ProtocolCode
  import opened Sockets

  // The shared card reader. Its ATR is fixed when it is made; what it answers is up to the card.
  class CardReader {
    const atr: Data
    var ops: seq<Act>

    constructor (atr: Data)
      ensures this.atr == atr && ops == []
    {
      this.atr, ops := atr, [];
    }

    method Write(cmd: Data)
      modifies this
      ensures ops == old(ops) + [CardWrite(cmd)]
    {
      ops := ops + [CardWrite(cmd)];
    }

    // Reads stop after 512 bytes.
    method Read() returns (reply: Data)
      modifies this
      ensures ops == old(ops) + [CardRead(reply)] && |reply| <= 512
    {
      reply := *;
      if |reply| > 512 {
        reply := reply[..512];
      }
      ops := ops + [CardRead(reply)];
    }
  }

  // What one observation makes of a session's state and of its socket. A closed session leaves the
  // socket alone; any other asks select once, sees nothing exactly when that answers 0, and otherwise
  // reads a packet, as far as the calls let it, and then writes.
  ghost predicate SocketStep(st: SM.State, after: SM.State, before: Net, now: Net, takesWhole: bool,
                             o: Observation, c: Config)
  {
    var r := ServerModel.Tick(st, o, c);
    && o.Valid() && after == r.st
    && (if st == SM.Closed then o.NothingNew? && now == before
        else Served(before, now, !o.NothingNew?, o.Took(), Wires(r.acts), takesWhole))
  }

  class Session {
    var state: SM.State
    const ep: Endpoint
    const user: Data
    const pass: Data
    const reader: CardReader

    constructor (ep: Endpoint, reader: CardReader, user: Data, pass: Data)
      ensures state == SM.Init && this.ep == ep && this.reader == reader
      ensures this.user == user && this.pass == pass
    {
      state := SM.Init;
      this.ep, this.reader, this.user, this.pass := ep, reader, user, pass;
    }

    ghost function Cfg(): Config {
      SM.Config(user, pass, reader.atr)
    }

    // How a session's state, its socket and the reader relate before and after it has observed o.
    twostate predicate Ticked(o: Observation)
      reads this, ep, reader
    {
      && SocketTicked(o)
      && reader.ops == old(reader.ops) + CardActs(ServerModel.Tick(old(state), o, Cfg()).acts)
    }

    twostate predicate SocketTicked(o: Observation)
      reads this, ep
    {
      SocketStep(old(state), state, old(ep.Now()), ep.Now(), ep.takesWhole, o, Cfg())
    }

    method TickOnce() returns (ghost o: Observation)
      requires |reader.atr| <= P.MAX_PAYLOAD
      modifies this`state, ep, reader
      ensures Ticked(o)
    {
      match state
      case Init => o := CheckAuth();
      case Authorized => o := HandleClientRequests();
      case Closed => o := NothingNew;
    }

    method CheckAuth() returns (ghost o: Observation)
      requires state == SM.Init
      modifies this`state, ep
      ensures Ticked(o)
    {
      hide P.Frame, P.ParseAuth, P.Sane, P.GetSize, IsPacket, Need, ResultOf;
      hide Tick, Wires, CardActs, LoopTakes, Echo, Sum, OnWire, Served, PacketRan, Failed;
      NoActs();
      TickInit([], [], Cfg());
      ghost var n0 := ep.Now();
      var newData := NewDataInSocket(ep);
      ghost var answer :| ep.calls == n0.calls + [Selected(answer)] && (newData <==> answer != 0);
      if !newData {
        LooksInVain(n0, ep.Now(), ep.takesWhole);
        return NothingNew;
      }
      var data := new PacketData();
      ghost var before := data.Bytes();
      var rc, taken := ReadPacket(ep, data);
      ghost var n1 := ep.Now();
      if 0 > rc {
        state := SM.Closed;
        SilentAfterwards(n1, ep.takesWhole);
        LooksReadsWrites(n0, n1, n1, answer, taken, [], ep.takesWhole);
        return ReadFailed(taken);
      }
      GotIs(taken, before);
      o := Read(taken, []);
      TickInit(taken, [], Cfg());
      var ok := Code.ParseAuth(data, user, pass);
      if ok {
        Code.PrepareAuthReply(data, true);
        state := SM.Authorized;
      } else {
        Code.PrepareAuthReply(data, false);
        state := SM.Closed;
      }
      WiresOfOne(AuthReplied(ok, taken));
      ghost var reply := data.Bytes();
      var written, takes := Write(ep, data);
      LooksReadsWrites(n0, n1, ep.Now(), answer, taken, reply, ep.takesWhole);
    }

    method HandleClientRequests() returns (ghost o: Observation)
      requires state == SM.Authorized && |reader.atr| <= P.MAX_PAYLOAD
      modifies this`state, ep, reader
      ensures Ticked(o)
    {
      hide P.Frame, P.Sane, P.GetSize, IsPacket, Need, ResultOf;
      hide Tick, Wires, CardActs, LoopTakes, Echo, Sum, OnWire, Served, PacketRan, Failed;
      NoActs();
      TickAuthorized([], [], Cfg());
      ghost var n0 := ep.Now();
      var newData := NewDataInSocket(ep);
      ghost var answer :| ep.calls == n0.calls + [Selected(answer)] && (newData <==> answer != 0);
      if !newData {
        LooksInVain(n0, ep.Now(), ep.takesWhole);
        return NothingNew;
      }
      var data := new PacketData();
      ghost var before := data.Bytes();
      var rc, taken := ReadPacket(ep, data);
      ghost var n1 := ep.Now();
      if 0 > rc {
        state := SM.Closed;
        SilentAfterwards(n1, ep.takesWhole);
        LooksReadsWrites(n0, n1, n1, answer, taken, [], ep.takesWhole);
        return ReadFailed(taken);
      }
      GotIs(taken, before);
      o := Answer(data, taken, n0, answer);
    }

    // The rest of handleClientRequests, once a packet has been read.
    method Answer(data: PacketData, ghost p: Data, ghost n0: Net, ghost answer: int) returns (ghost o: Observation)
      requires state == SM.Authorized && |reader.atr| <= P.MAX_PAYLOAD
      requires data.Valid() && data.Bytes() == p && IsPacket(p)
      requires answer != 0 && n0.calls + [Selected(answer)] <= ep.calls && ep.outgoing == n0.outgoing
      requires n0.incoming == p + ep.incoming && PacketRan(ep.calls[|n0.calls| + 1..], p)
      modifies this`state, ep, reader, data
      ensures o.Read? && o.packet == p
      ensures SocketStep(SM.Authorized, state, n0, ep.Now(), ep.takesWhole, o, Cfg())
      ensures reader.ops == old(reader.ops) + CardActs(ServerModel.Tick(SM.Authorized, o, Cfg()).acts)
    {
      hide P.Frame, P.Sane, P.GetSize, IsPacket, Need;
      hide Tick, Wires, CardActs, LoopTakes, Echo, Sum, OnWire, Served, PacketRan, WriteCalls;
      NoActs();
      o := Read(p, []);
      TickAuthorized(p, [], Cfg());
      ghost var n1 := ep.Now();
      ghost var reply: Data := [];
      var reset := Code.ParseResetRequest(data);
      if reset {
        var defined := Code.PrepareResetReply(data, reader.atr);
        WiresOfOne(AtrSent(reader.atr));
        reply := data.Bytes();
        var written, takes := Write(ep, data);
      } else {
        var ok, cardData := Code.ParseCmdRequest(data, []);
        if ok {
          ghost var cmd := cardData;
          reader.Write(cardData);
          cardData := reader.Read();
          o := Read(p, cardData);
          TickAuthorized(p, cardData, Cfg());
          var defined := Code.PrepareCmdReply(data, cardData);
          WiresOfCommand(cmd, cardData);
          reply := data.Bytes();
          var written, takes := Write(ep, data);
        } else {
          SilentAfterwards(n1, ep.takesWhole);
          state := SM.Closed;
        }
      }
      LooksReadsWrites(n0, n1, ep.Now(), answer, p, reply, ep.takesWhole);
    }
  }

  function Yes(n: nat): seq<bool> {
    seq(n, _ => true)
  }

  // The listening socket and the connections queued on it.
  class Listener {
    var waiting: seq<Endpoint>
    ghost var answers: seq<bool>  // for each time it was asked, whether it had a connection to give

    constructor (waiting: seq<Endpoint>)
      ensures this.waiting == waiting && answers == []
    {
      this.waiting := waiting;
      answers := [];
    }

    // connectWaitingClient: the next connection, or null where the code returns -1.
    method ConnectWaitingClient() returns (ep: Endpoint?)
      modifies this
      ensures answers == old(answers) + [ep != null]
      ensures ep == null ==> waiting == old(waiting)
      ensures ep != null ==> old(waiting) != [] && ep == old(waiting)[0] && waiting == old(waiting)[1..]
    {
      var none := *;
      if none || waiting == [] {
        answers := answers + [false];
        return null;
      }
      answers := answers + [true];
      ep := waiting[0];
      waiting := waiting[1..];
    }
  }

  class PSCProxyServer {
    const reader: CardReader
    var clients: seq<Session>
    var deleted: seq<Session>  // the sessions destroyed so far, whose descriptors were closed

    constructor (reader: CardReader)
      requires |reader.atr| <= P.MAX_PAYLOAD
      ensures this.reader == reader && clients == [] && deleted == [] && Valid()
    {
      this.reader := reader;
      clients, deleted := [], [];
    }

    ghost function Cfg(): Config {
      SM.Config(USER, PASS, reader.atr)
    }

    ghost predicate Valid()
      reads this
    {
      && |reader.atr| <= P.MAX_PAYLOAD
      && (forall k | 0 <= k < |clients| :: clients[k].reader == reader && clients[k].Cfg() == Cfg())
      && NoDuplicates(Ends(clients))
    }

    // The states of the sessions in the vector.
    ghost function States(): seq<SM.State>
      reads this, clients
    {
      seq(|clients|, k requires 0 <= k < |clients| reads this, clients => clients[k].state)
    }

    // Accepts until the listening socket has nobody to give. The kernel hands out only descriptors that are not open.
    method HandleNewClients(listener: Listener)
      requires Valid() && NoDuplicates(Ends(clients) + listener.waiting)
      modifies this`clients, listener
      ensures Valid() && old(clients) <= clients
      ensures forall k | |old(clients)| <= k < |clients| :: fresh(clients[k]) && clients[k].state == SM.Init
      ensures Ends(clients) + listener.waiting == old(Ends(clients) + listener.waiting)
      ensures listener.answers == old(listener.answers) + Yes(|clients| - |old(clients)|) + [false]
    {
      ghost var all := Ends(clients) + listener.waiting;
      while true
        invariant Valid() && old(clients) <= clients
        invariant forall k | |old(clients)| <= k < |clients| :: fresh(clients[k]) && clients[k].state == SM.Init
        invariant Ends(clients) + listener.waiting == all
        invariant listener.answers == old(listener.answers) + Yes(|clients| - |old(clients)|)
        decreases |listener.waiting|
      {
        ghost var v := clients;
        var ep := listener.ConnectWaitingClient();
        if ep == null {
          break;
        }
        var s := new Session(ep, reader, USER, PASS);
        clients := clients + [s];
        assert Yes(|clients| - |old(clients)|) == Yes(|v| - |old(clients)|) + [true];
        assert Ends(clients) == Ends(v) + [ep];
        assert Ends(clients) == all[..|clients|];
      }
    }

    // Every session is ticked once, in vector order, and the reader sees what they do to it one
    // after the other.
    method TickClients() returns (ghost obs: seq<Observation>)
      requires Valid()
      modifies clients, (set s | s in clients :: s.ep), reader
      ensures |obs| == |clients|
      ensures forall k | 0 <= k < |clients| :: clients[k].SocketTicked(obs[k])
      ensures reader.ops == old(reader.ops) + CardLog(old(States()), obs, Cfg())
    {
      hide Ends, NoDuplicates, ServerModel.Tick, CardActs, CardLog, SocketStep;
      NoCardLog(Cfg());
      obs := [];
      ghost var before := States();
      var k := 0;
      while k < |clients|
        invariant 0 <= k <= |clients| && |obs| == k && before == old(States())
        invariant forall j | 0 <= j < k :: clients[j].SocketTicked(obs[j])
        invariant forall j | k <= j < |clients| :: unchanged(clients[j]) && unchanged(clients[j].ep)
        invariant reader.ops == old(reader.ops) + CardLog(before[..k], obs, Cfg())
      {
        assert forall j | 0 <= j < |clients| && j != k ::
            clients[j] != clients[k] && clients[j].ep != clients[k].ep by {
          OwnEnds(clients);
        }
        label L:
        assert clients[k].Cfg() == Cfg() && clients[k].reader == reader && clients[k].state == before[k];
        ghost var o := clients[k].TickOnce();
        CardLogExtend(before[..k], obs, before[k], o, Cfg());
        assert before[..k + 1] == before[..k] + [before[k]];
        assert forall j | 0 <= j < k :: unchanged@L(clients[j]) && unchanged@L(clients[j].ep);
        obs := obs + [o];
        k := k + 1;
      }
      assert before[..k] == before;
    }

    // closeInactiveClients as written, on a vector whose erase moves the pointers in place and leaves
    // the old last cell as it was. By the letter of C++ every erase invalidates the loop's iterator;
    // the result says whether the loop touched a deleted session or erased past the end.
    method CloseInactiveClients() returns (defined: bool)
      requires Valid()
      modifies this`clients, this`deleted
      ensures match SweepFrom(old(clients), |old(clients)|, 0, old(ClosedIn(clients)), [])
              case Swept(v, d) => defined && clients == v && deleted == old(deleted) + d
              case Undefined => !defined
    {
      hide SweepFrom, Erase;
      ghost var dead := ClosedIn(clients);
      var cells := clients;   // the vector's memory
      var size: nat := |clients|;
      var gone: seq<Session> := [];
      var it := 0;
      while it != |cells|
        invariant it <= |cells| == |old(clients)| && size <= |cells|
        invariant clients == old(clients) && deleted == old(deleted)
        invariant forall k | 0 <= k < |cells| :: cells[k] in old(clients)
        invariant SweepFrom(cells, size, it, dead, gone) == SweepFrom(old(clients), |old(clients)|, 0, dead, [])
        decreases |cells| - it
      {
        SweepStep(cells, size, it, dead, gone);
        if cells[it] in gone {
          return false;
        }
        if cells[it].state == SM.Closed {
          if it >= size {
            return false;
          }
          EraseMembers(cells, size, it);
          cells := Erase(cells, size, it);
          size := size - 1;
          gone := gone + [cells[it]];
        }
        it := it + 1;
      }
      SweepEnd(cells, size, dead, gone);
      clients := cells[..size];
      deleted := deleted + gone;
      return true;
    }

    // The sweep as it was evidently meant: the erased session is the one deleted, and the position
    // that erase returns is looked at next.
    method CloseInactiveClientsAsMeant()
      requires Valid()
      modifies this`clients, this`deleted
      ensures Valid()
      ensures clients == Keep(old(clients), old(ClosedIn(clients)))
      ensures deleted == old(deleted) + Drop(old(clients), old(ClosedIn(clients)))
    {
      hide Keep, Drop, Ends, NoDuplicates;
      ghost var v := clients;
      ghost var dead := ClosedIn(clients);
      ghost var n := 0;
      ghost var kept: seq<Session> := [];
      assert Keep(v[..0], dead) == [] && Drop(v[..0], dead) == [] by { KeepDropNone(dead); }
      var it := 0;
      while it < |clients|
        invariant n <= |v| && it == |kept| && clients == kept + v[n..]
        invariant kept == Keep(v[..n], dead) && deleted == old(deleted) + Drop(v[..n], dead)
        decreases |clients| - it
      {
        var s := clients[it];
        MeantStep(v, n, kept, dead);
        if s.state == SM.Closed {
          clients := clients[..it] + clients[it + 1..];
          deleted := deleted + [s];
        } else {
          kept := kept + [s];
          it := it + 1;
        }
        n := n + 1;
      }
      assert v[..n] == v && v[n..] == [] && kept + [] == kept;
      KeepOwnEnds(v, dead);
      KeepMembers(v, dead);
    }

    // One tick of the server, as written.
    method Tick(listener: Listener) returns (ghost obs: seq<Observation>, ghost mid: seq<Session>, defined: bool)
      requires Valid() && NoDuplicates(Ends(clients) + listener.waiting)
      modifies this`clients, this`deleted, listener, reader
      modifies clients, (set s | s in clients :: s.ep), (set e | e in listener.waiting)
      ensures old(clients) <= mid && |obs| == |mid|
      ensures forall k | |old(clients)| <= k < |mid| :: fresh(mid[k]) && mid[k].ep in old(listener.waiting)
      ensures forall k | 0 <= k < |mid| ::
                var st := if k < |old(clients)| then old(clients[k].state) else SM.Init;
                mid[k].state == ServerModel.Tick(st, obs[k], Cfg()).st
      ensures var started := seq(|mid| - |old(clients)|, _ => SM.Init);
              reader.ops == old(reader.ops) + CardLog(old(States()) + started, obs, Cfg())
      ensures OnlyLastDead(mid, ClosedIn(mid)) <==>
                && defined
                && clients == Keep(mid, ClosedIn(mid))
                && deleted == old(deleted) + Drop(mid, ClosedIn(mid))
      ensures OnlyLastDead(mid, ClosedIn(mid)) ==> Valid() && NoDuplicates(Ends(clients) + listener.waiting)
      ensures Ends(mid) + listener.waiting == old(Ends(clients) + listener.waiting)
      ensures listener.answers == old(listener.answers) + Yes(|mid| - |old(clients)|) + [false]
      ensures forall k | 0 <= k < |old(clients)| :: mid[k].SocketTicked(obs[k])
      ensures forall k | |old(clients)| <= k < |mid| :: Welcomed(mid[k], mid[k].ep, obs[k])
    {
      hide ServerModel.Tick, CardActs, CardLog, SocketStep, SweepFrom, Keep, Drop, Ends, OnlyLastDead, NoDuplicates;
      HandleNewClients(listener);
      mid := clients;
      NewEnds(old(clients), old(listener.waiting), mid, listener.waiting);
      assert forall k | |old(clients)| <= k < |mid| :: mid[k].ep in old(listener.waiting);
      ghost var start := States();
      assert start == old(States()) + seq(|mid| - |old(clients)|, _ => SM.Init);
      label L:
      obs := TickClients();
      forall k | 0 <= k < |mid|
        ensures mid[k].state == ServerModel.Tick(start[k], obs[k], Cfg()).st
      {
        assert mid[k].SocketTicked@L(obs[k]);
        var s := mid[k];
        StepState(old@L(s.state), s.state, old@L(s.ep.Now()), s.ep.Now(), s.ep.takesWhole, obs[k], s.Cfg());
      }
      defined := CloseInactiveClients();
      SweepOfSessions(mid, ClosedIn(mid), old(deleted));
      KeepBefore(mid, ClosedIn(mid), listener.waiting);
    }
  }

  // What a tick does for a session that is only accepted in it.
  twostate predicate Welcomed(new s: Session, ep: Endpoint, o: Observation)
    reads s, ep
  {
    s.ep == ep &&
    SocketStep(SM.Init, s.state, old(ep.Now()), ep.Now(), ep.takesWhole, o, s.Cfg())
  }

  lemma StepState(st: SM.State, after: SM.State, before: Net, now: Net, takesWhole: bool, o: Observation, c: Config)
    requires SocketStep(st, after, before, now, takesWhole, o, c)
    ensures after == ServerModel.Tick(st, o, c).st
  {
  }

  ghost function ClosedIn(v: seq<Session>): set<Session>
    reads v
  {
    set s | s in v && s.state == SM.Closed
  }

  // The descriptors of the sessions in a vector.
  ghost function Ends(v: seq<Session>): seq<Endpoint> {
    seq(|v|, k requires 0 <= k < |v| => v[k].ep)
  }

  lemma NewEnds(v: seq<Session>, queue: seq<Endpoint>, w: seq<Session>, left: seq<Endpoint>)
    requires v <= w && Ends(w) + left == Ends(v) + queue
    ensures forall k | |v| <= k < |w| :: w[k].ep in queue
  {
    forall k | |v| <= k < |w|
      ensures w[k].ep in queue
    {
      assert w[k].ep == (Ends(w) + left)[k] == (Ends(v) + queue)[k] == queue[k - |v|];
    }
  }

  lemma OwnEnds(v: seq<Session>)
    requires NoDuplicates(Ends(v))
    ensures forall j, k | 0 <= j < |v| && 0 <= k < |v| && j != k :: v[j] != v[k] && v[j].ep != v[k].ep
  {
    assert forall j | 0 <= j < |v| :: Ends(v)[j] == v[j].ep;
  }

  lemma {:induction false} MeantStep(v: seq<Session>, n: nat, kept: seq<Session>, dead: set<Session>)
    requires n < |v| && kept == Keep(v[..n], dead)
    ensures var now := kept + v[n..];
            && now[|kept|] == v[n]
            && now[..|kept|] + now[|kept| + 1..] == kept + v[n + 1..]
            && now == kept + [v[n]] + v[n + 1..]
    ensures Keep(v[..n + 1], dead) == kept + (if v[n] in dead then [] else [v[n]])
    ensures Drop(v[..n + 1], dead) == Drop(v[..n], dead) + (if v[n] in dead then [v[n]] else [])
  {
    hide Keep, Drop;
    KeepDropAppend(v[..n], v[n], dead);
    assert v[..n + 1] == v[..n] + [v[n]];
    assert v[n..] == [v[n]] + v[n + 1..];
    AtThePosition(kept, v[n], v[n + 1..]);
  }

  lemma AtThePosition(kept: seq<Session>, s: Session, rest: seq<Session>)
    ensures var now := kept + ([s] + rest);
            && now[|kept|] == s && now == kept + [s] + rest
            && now[..|kept|] + now[|kept| + 1..] == kept + rest
  {
  }

  lemma {:induction false} KeepDropAppend(v: seq<Session>, s: Session, dead: set<Session>)
    ensures Keep(v + [s], dead) == Keep(v, dead) + (if s in dead then [] else [s])
    ensures Drop(v + [s], dead) == Drop(v, dead) + (if s in dead then [s] else [])
  {
    if v == [] {
      assert v + [s] == [s];
      KeepDropCons(s, [], dead);
    } else {
      assert v + [s] == [v[0]] + (v[1..] + [s]) && v == [v[0]] + v[1..];
      KeepDropCons(v[0], v[1..] + [s], dead);
      KeepDropCons(v[0], v[1..], dead);
      KeepDropAppend(v[1..], s, dead);
    }
  }

  lemma {:induction false} KeepDropCons(s: Session, v: seq<Session>, dead: set<Session>)
    ensures Keep([s] + v, dead) == (if s in dead then [] else [s]) + Keep(v, dead)
    ensures Drop([s] + v, dead) == (if s in dead then [s] else []) + Drop(v, dead)
  {
    assert ([s] + v)[1..] == v;
  }

  lemma {:induction false} KeepDropNone(dead: set<Session>)
    ensures Keep([], dead) == [] && Drop([], dead) == []
  {
  }

  lemma {:induction false} SweepOfSessions(v: seq<Session>, dead: set<Session>, deleted: seq<Session>)
    requires NoDuplicates(Ends(v))
    ensures var r := SweepFrom(v, |v|, 0, dead, []);
            OnlyLastDead(v, dead) <==>
              r.Swept? && r.vector == Keep(v, dead) && deleted + r.deleted == deleted + Drop(v, dead)
    ensures NoDuplicates(Ends(Keep(v, dead)))
    ensures forall k | 0 <= k < |Keep(v, dead)| :: Keep(v, dead)[k] in v
  {
    hide Keep, Drop, SweepFrom, OnlyLastDead;
    OwnEnds(v);
    SweepRightIff(v, dead);
    KeepOwnEnds(v, dead);
    KeepMembers(v, dead);
    var r := SweepFrom(v, |v|, 0, dead, []);
    if r.Swept? && deleted + r.deleted == deleted + Drop(v, dead) {
      assert r.deleted == (deleted + r.deleted)[|deleted|..] == (deleted + Drop(v, dead))[|deleted|..] == Drop(v, dead);
    }
  }

  // A sweep leaves what is distinct from the connections still waiting distinct from them.
  lemma {:induction false} KeepBefore(v: seq<Session>, dead: set<Session>, waiting: seq<Endpoint>)
    requires NoDuplicates(Ends(v) + waiting)
    ensures NoDuplicates(Ends(Keep(v, dead)) + waiting)
  {
    var all, kept := Ends(v) + waiting, Keep(v, dead);
    assert forall k | 0 <= k < |v| :: Ends(v)[k] == all[k];
    assert forall k | 0 <= k < |waiting| :: waiting[k] == all[|v| + k];
    KeepOwnEnds(v, dead);
    KeepMembers(v, dead);
    forall k, j | 0 <= k < |kept| && 0 <= j < |waiting|
      ensures kept[k].ep != waiting[j]
    {
      var m :| 0 <= m < |v| && v[m] == kept[k];
      assert all[m] == kept[k].ep && all[|v| + j] == waiting[j];
    }
    Together(Ends(kept), waiting);
  }

  lemma Together(a: seq<Endpoint>, b: seq<Endpoint>)
    requires NoDuplicates(a) && NoDuplicates(b)
    requires forall k, j | 0 <= k < |a| && 0 <= j < |b| :: a[k] != b[j]
    ensures NoDuplicates(a + b)
  {
  }

  lemma NoDuplicatesTail(ends: seq<Endpoint>)
    requires NoDuplicates(ends) && ends != []
    ensures NoDuplicates(ends[1..])
  {
  }

  lemma NoDuplicatesCons(e: Endpoint, ends: seq<Endpoint>)
    requires NoDuplicates(ends) && forall k | 0 <= k < |ends| :: ends[k] != e
    ensures NoDuplicates([e] + ends)
  {
  }

  lemma {:induction false} KeepOwnEnds(v: seq<Session>, dead: set<Session>)
    requires NoDuplicates(Ends(v))
    ensures NoDuplicates(Ends(Keep(v, dead)))
  {
    hide NoDuplicates;
    if v == [] {
      assert Keep(v, dead) == v;
    } else {
      OwnEnds(v);
      NoDuplicatesTail(Ends(v));
      assert Ends(v[1..]) == Ends(v)[1..];
      KeepOwnEnds(v[1..], dead);
      KeepMembers(v[1..], dead);
      var rest := Keep(v[1..], dead);
      forall k | 0 <= k < |rest|
        ensures rest[k].ep != v[0].ep
      {
        assert rest[k] in v[1..];
      }
      assert Ends([v[0]] + rest) == [v[0].ep] + Ends(rest);
      assert [] + rest == rest;
      if v[0] !in dead {
        NoDuplicatesCons(v[0].ep, Ends(rest));
      }
    }
  }

  lemma TickAuthorized(p: Data, reply: Data, c: Config)
    ensures forall taken :: Tick(SM.Authorized, ReadFailed(taken), c) == Outcome(SM.Closed, [])
    ensures Tick(SM.Authorized, NothingNew, c) == Outcome(SM.Authorized, [])
    ensures Tick(SM.Authorized, Read(p, reply), c) ==
            if P.ParseResetRequest(p) then Outcome(SM.Authorized, [AtrSent(c.atr)])
            else match P.ParseCmdRequest(p)
            case Some(cmd) => Outcome(SM.Authorized, [CardWrite(cmd), CardRead(reply), ReplySent(reply)])
            case None => Outcome(SM.Closed, [])
  {
    hide P.Sane;
  }

  lemma TickInit(p: Data, reply: Data, c: Config)
    ensures forall taken :: Tick(SM.Init, ReadFailed(taken), c) == Outcome(SM.Closed, [])
    ensures Tick(SM.Init, NothingNew, c) == Outcome(SM.Init, [])
    ensures Tick(SM.Init, Read(p, reply), c) ==
            var ok := P.ParseAuth(p, c.user, c.pass);
            Outcome(if ok then SM.Authorized else SM.Closed, [AuthReplied(ok, p)])
  {
    hide P.ParseAuth;
  }
}
