// Runs of one client, and of the server on one connection, as parts of runs of the whole system.
module Schedules {
  import opened Bytes
  import opened Protocol
  import opened Framing
  import opened System

  // Where these steps of one client take its link, if they are all possible.
  function ClientRun(l: Link, acts: seq<ClientAct>): Option<Link> {
    if acts == [] then Some(l)
    else
      match ClientRun(l, acts[..|acts| - 1])
      case None => None
      case Some(m) => if ClientCan(m, acts[|acts| - 1]) then Some(ClientDo(m, acts[|acts| - 1])) else None
  }

  // The same for steps of the server on one connection, with all it did to the reader.
  function ServerRun(l: Link, conn: nat, v: View, acts: seq<ServerAct>, c: Config): Option<ServerEffect> {
    if acts == [] then Some(ServerEffect(l, v, []))
    else
      match ServerRun(l, conn, v, acts[..|acts| - 1], c)
      case None => None
      case Some(e) =>
        var a := acts[|acts| - 1];
        if !ServerCan(e.link, e.view, a) then None
        else
          var f := ServerDo(e.link, conn, e.view, a, c);
          Some(f.(ops := e.ops + f.ops))
  }

  lemma {:induction false} ClientExtend(l: Link, acts: seq<ClientAct>, m: Link, a: ClientAct)
    requires ClientRun(l, acts) == Some(m) && ClientCan(m, a)
    ensures ClientRun(l, acts + [a]) == Some(ClientDo(m, a))
  {
    hide ClientCan, ClientDo;
    assert (acts + [a])[..|acts|] == acts;
  }

  lemma {:induction false} ServerExtend(l: Link, conn: nat, v: View, acts: seq<ServerAct>, e: ServerEffect,
                                        a: ServerAct, c: Config)
    requires ServerRun(l, conn, v, acts, c) == Some(e) && ServerCan(e.link, e.view, a)
    ensures var f := ServerDo(e.link, conn, e.view, a, c);
            ServerRun(l, conn, v, acts + [a], c) == Some(f.(ops := e.ops + f.ops))
  {
    hide ServerCan, ServerDo;
    assert (acts + [a])[..|acts|] == acts;
  }

  lemma {:induction false} NoClientSteps(l: Link)
    ensures ClientRun(l, []) == Some(l)
  {
  }

  lemma {:induction false} NoServerSteps(l: Link, conn: nat, v: View, c: Config)
    ensures ServerRun(l, conn, v, [], c) == Some(ServerEffect(l, v, []))
  {
  }

  // A write that has begun can be carried to its end.
  lemma ClientWrites(l: Link, acts: seq<ClientAct>, m: Link) returns (next: seq<ClientAct>)
    requires ClientRun(l, acts) == Some(m) && m.pc.Writing? && !m.stranger
    ensures ClientRun(l, next) == Some(m.(pc := AfterWrite(m.pc.next), up := m.up + m.pc.rest))
    ensures acts <= next
  {
    hide ClientRun;
    var n := m;
    next := acts;
    if m.pc.rest != [] {
      var k := |m.pc.rest|;
      ClientExtend(l, acts, m, Put(k));
      next := acts + [Put(k)];
      n := ClientDo(m, Put(k));
      assert m.pc.rest[..k] == m.pc.rest && m.pc.rest[k..] == [];
    } else {
      assert m.up + m.pc.rest == m.up;
    }
    ClientExtend(l, next, n, WriteDone);
    next := next + [WriteDone];
  }

  lemma ServerWrites(l: Link, conn: nat, v: View, acts: seq<ServerAct>, e: ServerEffect, c: Config)
    returns (next: seq<ServerAct>)
    requires ServerRun(l, conn, v, acts, c) == Some(e) && e.view.Replying?
    ensures ServerRun(l, conn, v, next, c) ==
            Some(ServerEffect(e.link.(down := e.link.down + e.view.rest), Off, e.ops))
  {
    hide ServerRun;
    var f := e;
    next := acts;
    assert e.ops + [] == e.ops;
    if e.view.rest != [] {
      var k := |e.view.rest|;
      ServerExtend(l, conn, v, acts, e, Send(k), c);
      next := acts + [Send(k)];
      f := ServerDo(e.link, conn, e.view, Send(k), c).(ops := e.ops);
      assert e.view.rest[..k] == e.view.rest && e.view.rest[k..] == [];
    } else {
      assert e.link.down + e.view.rest == e.link.down;
    }
    ServerExtend(l, conn, v, next, f, SendDone, c);
    next := next + [SendDone];
  }

  // A blocked read takes what has arrived: up to the end of the header first, and then the rest.
  lemma {:induction false} ClientArrives(l: Link, acts: seq<ClientAct>, m: Link, taken: Data, rest: Data)
    returns (next: seq<ClientAct>)
    requires ClientRun(l, acts) == Some(m) && m.pc.Reading? && !m.stranger
    requires m.down == taken + rest
    requires var got := m.pc.got + taken; |got| <= Need(got)
    ensures ClientRun(l, next) == Some(m.(pc := Reading(m.pc.got + taken, m.pc.purpose), down := rest))
    decreases |taken|
  {
    hide GetSize, ClientRun;
    var got := m.pc.got;
    if taken == [] {
      assert got + taken == got && m.down == rest;
      next := acts;
    } else {
      var k := if |got| < HEADER && HEADER < |got + taken| then HEADER - |got| else |taken|;
      if HEADER <= |got| {
        NeedOfPrefix(got, got + taken);
      }
      assert m.down[..k] == taken[..k] && m.down[k..] == taken[k..] + rest;
      ClientExtend(l, acts, m, Receive(k));
      var n := ClientDo(m, Receive(k));
      assert n.pc.got + taken[k..] == got + taken;
      next := ClientArrives(l, acts + [Receive(k)], n, taken[k..], rest);
    }
  }

  lemma {:induction false} ServerArrives(l: Link, conn: nat, v: View, acts: seq<ServerAct>, e: ServerEffect,
                                         taken: Data, rest: Data, c: Config)
    returns (next: seq<ServerAct>)
    requires ServerRun(l, conn, v, acts, c) == Some(e) && e.view.Taking?
    requires e.link.up == taken + rest
    requires var got := e.view.got + taken; |got| <= Need(got)
    ensures ServerRun(l, conn, v, next, c) ==
            Some(ServerEffect(e.link.(up := rest), Taking(e.view.got + taken), e.ops))
    decreases |taken|
  {
    hide GetSize, ServerRun;
    var got := e.view.got;
    if taken == [] {
      assert got + taken == got && e.link.up == rest;
      next := acts;
    } else {
      var k := if |got| < HEADER && HEADER < |got + taken| then HEADER - |got| else |taken|;
      if HEADER <= |got| {
        NeedOfPrefix(got, got + taken);
      }
      assert e.link.up[..k] == taken[..k] && e.link.up[k..] == taken[k..] + rest;
      ServerExtend(l, conn, v, acts, e, Take(k), c);
      var f := ServerEffect(e.link.(up := taken[k..] + rest), Taking(got + taken[..k]), e.ops);
      assert e.ops + [] == e.ops;
      assert got + taken[..k] + taken[k..] == got + taken;
      next := ServerArrives(l, conn, v, acts + [Take(k)], f, taken[k..], rest, c);
    }
  }

  // ---------- In any pieces ----------

  function Puts(pieces: seq<Data>): seq<ClientAct> {
    seq(|pieces|, k requires 0 <= k < |pieces| => Put(|pieces[k]|))
  }

  function Receives(pieces: seq<Data>): seq<ClientAct> {
    seq(|pieces|, k requires 0 <= k < |pieces| => Receive(|pieces[k]|))
  }

  function Takes(pieces: seq<Data>): seq<ServerAct> {
    seq(|pieces|, k requires 0 <= k < |pieces| => Take(|pieces[k]|))
  }

  function Sends(pieces: seq<Data>): seq<ServerAct> {
    seq(|pieces|, k requires 0 <= k < |pieces| => Send(|pieces[k]|))
  }

  // No read asks for more than the header before the header is there.
  predicate FitsReads(got: Data, pieces: seq<Data>) {
    forall n | 0 <= n < |pieces| :: FitsRead(got + Flatten(pieces[..n]), pieces[n])
  }

  predicate FitsRead(got: Data, piece: Data) {
    |got| + |piece| <= Need(got)
  }

  // A client can write its request in any pieces, and the server its answer.
  lemma {:induction false} ClientPutsPieces(l: Link, pieces: seq<Data>, left: Data)
    requires l.pc.Writing? && !l.stranger && l.pc.rest == Flatten(pieces) + left
    requires forall k | 0 <= k < |pieces| :: pieces[k] != []
    ensures ClientRun(l, Puts(pieces)) ==
            Some(l.(pc := Writing(left, l.pc.next), up := l.up + Flatten(pieces)))
  {
    hide ClientRun, Flatten;
    NoClientSteps(l);
    assert Flatten([]) == [] by { NoPieces(); }
    if pieces == [] {
      assert Puts(pieces) == [] && l.pc.rest == left && l.up + [] == l.up;
      assert l.(pc := Writing(left, l.pc.next), up := l.up + []) == l;
    } else {
      var n := |pieces| - 1;
      var init, last := pieces[..n], pieces[n];
      FlattenAppend(init, last);
      assert pieces == init + [last] && Flatten(init) + last + left == Flatten(init) + (last + left);
      ClientPutsPieces(l, init, last + left);
      var m := l.(pc := Writing(last + left, l.pc.next), up := l.up + Flatten(init));
      assert Puts(pieces) == Puts(init) + [Put(|last|)];
      assert (last + left)[..|last|] == last && (last + left)[|last|..] == left;
      assert l.up + Flatten(init) + last == l.up + (Flatten(init) + last);
      ClientExtend(l, Puts(init), m, Put(|last|));
    }
  }

  lemma {:induction false} ServerSendsPieces(l: Link, conn: nat, v: View, pieces: seq<Data>, left: Data, c: Config)
    requires v.Replying? && v.rest == Flatten(pieces) + left
    requires forall k | 0 <= k < |pieces| :: pieces[k] != []
    ensures ServerRun(l, conn, v, Sends(pieces), c) ==
            Some(ServerEffect(l.(down := l.down + Flatten(pieces)), Replying(left), []))
  {
    hide ServerRun, Flatten;
    NoServerSteps(l, conn, v, c);
    assert Flatten([]) == [] by { NoPieces(); }
    if pieces == [] {
      assert Sends(pieces) == [] && v == Replying(left) && l.down + [] == l.down;
    } else {
      var n := |pieces| - 1;
      var init, last := pieces[..n], pieces[n];
      FlattenAppend(init, last);
      assert pieces == init + [last] && Flatten(init) + last + left == Flatten(init) + (last + left);
      ServerSendsPieces(l, conn, v, init, last + left, c);
      var e := ServerEffect(l.(down := l.down + Flatten(init)), Replying(last + left), []);
      assert Sends(pieces) == Sends(init) + [Send(|last|)];
      assert (last + left)[..|last|] == last && (last + left)[|last|..] == left;
      assert l.down + Flatten(init) + last == l.down + (Flatten(init) + last);
      assert e.ops + [] == [];
      ServerExtend(l, conn, v, Sends(init), e, Send(|last|), c);
    }
  }

  // And each can take what has been written in any pieces.
  lemma {:induction false} ClientReceivesPieces(l: Link, pieces: seq<Data>, left: Data)
    requires l.pc.Reading? && !l.stranger && l.down == Flatten(pieces) + left
    requires FitsReads(l.pc.got, pieces) && forall k | 0 <= k < |pieces| :: pieces[k] != []
    ensures ClientRun(l, Receives(pieces)) ==
            Some(l.(pc := Reading(l.pc.got + Flatten(pieces), l.pc.purpose), down := left))
  {
    hide ClientRun, Flatten, Need;
    NoClientSteps(l);
    assert Flatten([]) == [] by { NoPieces(); }
    if pieces == [] {
      assert Receives(pieces) == [] && l.down == left && l.pc.got + [] == l.pc.got;
    } else {
      var n := |pieces| - 1;
      var init, last := pieces[..n], pieces[n];
      FlattenAppend(init, last);
      assert pieces == init + [last] && Flatten(init) + last + left == Flatten(init) + (last + left);
      FitsFewer(l.pc.got, pieces);
      ClientReceivesPieces(l, init, last + left);
      var m := l.(pc := Reading(l.pc.got + Flatten(init), l.pc.purpose), down := last + left);
      assert Receives(pieces) == Receives(init) + [Receive(|last|)];
      assert (last + left)[..|last|] == last && (last + left)[|last|..] == left;
      assert l.pc.got + Flatten(init) + last == l.pc.got + (Flatten(init) + last);
      ClientExtend(l, Receives(init), m, Receive(|last|));
    }
  }

  lemma {:induction false} ServerTakesPieces(l: Link, conn: nat, v: View, pieces: seq<Data>, left: Data, c: Config)
    requires v.Taking? && l.up == Flatten(pieces) + left
    requires FitsReads(v.got, pieces) && forall k | 0 <= k < |pieces| :: pieces[k] != []
    ensures ServerRun(l, conn, v, Takes(pieces), c) ==
            Some(ServerEffect(l.(up := left), Taking(v.got + Flatten(pieces)), []))
  {
    hide ServerRun, Flatten, Need;
    NoServerSteps(l, conn, v, c);
    assert Flatten([]) == [] by { NoPieces(); }
    if pieces == [] {
      assert Takes(pieces) == [] && l.up == left && v.got + [] == v.got;
    } else {
      var n := |pieces| - 1;
      var init, last := pieces[..n], pieces[n];
      FlattenAppend(init, last);
      assert pieces == init + [last] && Flatten(init) + last + left == Flatten(init) + (last + left);
      FitsFewer(v.got, pieces);
      ServerTakesPieces(l, conn, v, init, last + left, c);
      var e := ServerEffect(l.(up := last + left), Taking(v.got + Flatten(init)), []);
      assert Takes(pieces) == Takes(init) + [Take(|last|)];
      assert (last + left)[..|last|] == last && (last + left)[|last|..] == left;
      assert v.got + Flatten(init) + last == v.got + (Flatten(init) + last);
      assert e.ops + [] == [];
      ServerExtend(l, conn, v, Takes(init), e, Take(|last|), c);
    }
  }

  lemma NoPieces()
    ensures Flatten([]) == []
  {
  }

  lemma FitsFewer(got: Data, pieces: seq<Data>)
    requires FitsReads(got, pieces) && pieces != []
    ensures var n := |pieces| - 1;
            FitsReads(got, pieces[..n]) && FitsRead(got + Flatten(pieces[..n]), pieces[n])
  {
    hide Flatten, FitsRead;
    var n := |pieces| - 1;
    forall k | 0 <= k < n
      ensures FitsRead(got + Flatten(pieces[..n][..k]), pieces[..n][k])
    {
      assert pieces[..n][..k] == pieces[..k];
    }
  }

  // ---------- In the whole system ----------

  // What the server is busy with keeps no client and no stranger from moving, and one connection's
  // moves are possible or not whatever the others do.
  lemma NobodyWaits(s: State, i: nat, ca: ClientAct, bytes: Data, sa: ServerAct)
    requires i < |s.links|
    ensures ClientCan(s.links[i], ca) ==> Can(s, Client(i, ca))
    ensures s.links[i].stranger ==> Can(s, Inject(i, bytes))
    ensures s.pc == Free && ServerCan(s.links[i], Off, sa) ==> Can(s, Server(i, sa))
    ensures s.pc.Busy? && s.pc.conn == i && ServerCan(s.links[i], s.pc.view, sa) ==> Can(s, Server(i, sa))
  {
    hide ClientCan, ServerCan;
  }

  lemma {:induction false} Extend(steps: seq<Step>, step: Step, c: Config)
    requires Can(Run(steps, c), step)
    ensures Run(steps + [step], c) == Do(Run(steps, c), step, c)
  {
    hide Can, Do;
    assert (steps + [step])[..|steps|] == steps;
  }

  lemma {:induction false} ClientInSystem(steps: seq<Step>, c: Config, i: nat, acts: seq<ClientAct>, m: Link)
    returns (more: seq<Step>)
    requires i < |Run(steps, c).links| && ClientRun(Run(steps, c).links[i], acts) == Some(m)
    ensures steps <= more
    ensures var s := Run(steps, c); Run(more, c) == s.(links := s.links[i := m])
  {
    hide Run, ClientCan, ClientDo;
    var s := Run(steps, c);
    if acts == [] {
      assert s.links[i := m] == s.links;
      more := steps;
    } else {
      var init, a := acts[..|acts| - 1], acts[|acts| - 1];
      var n := ClientRun(s.links[i], init).value;
      more := ClientInSystem(steps, c, i, init, n);
      Extend(more, Client(i, a), c);
      more := more + [Client(i, a)];
      assert s.links[i := n][i := m] == s.links[i := m];
    }
  }

  lemma {:induction false} ServerInSystem(steps: seq<Step>, c: Config, i: nat, acts: seq<ServerAct>, e: ServerEffect)
    returns (more: seq<Step>)
    requires var s := Run(steps, c);
             && i < |s.links| && (s.pc.Busy? ==> s.pc.conn == i && s.pc.view != Off)
             && ServerRun(s.links[i], i, ViewOf(s, i), acts, c) == Some(e)
    ensures steps <= more
    ensures var s := Run(steps, c);
            Run(more, c) == State(s.links[i := e.link], if e.view.Off? then Free else Busy(i, e.view), s.ops + e.ops)
  {
    hide Run, ServerCan, ServerDo;
    var s := Run(steps, c);
    if acts == [] {
      assert s.links[i := e.link] == s.links && s.ops + e.ops == s.ops;
      more := steps;
    } else {
      var init, a := acts[..|acts| - 1], acts[|acts| - 1];
      var d := ServerRun(s.links[i], i, ViewOf(s, i), init, c).value;
      more := ServerInSystem(steps, c, i, init, d);
      Extend(more, Server(i, a), c);
      more := more + [Server(i, a)];
      var f := ServerDo(d.link, i, d.view, a, c);
      assert s.links[i := d.link][i := e.link] == s.links[i := e.link];
      assert s.ops + d.ops + f.ops == s.ops + e.ops;
    }
  }
}
