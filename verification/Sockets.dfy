// Socket's read and write loops over an operating system that moves as many bytes as it likes.
module Sockets {
  import opened Bytes
  import opened Packets
  import opened Framing
  import opened SystemCalls
  import P = Protocol

  datatype Net = Net(incoming: Data, outgoing: Data, calls: seq<Call>)

  // One end of a TCP connection, as far as the system calls show it. The answers of the calls whose
  // results decide what the code does next are recorded.
  class Endpoint {
    ghost var calls: seq<Call>
    var incoming: Data      // what the peer has sent or will send and has not been read yet
    var outgoing: Data      // what has been written so far
    const takesWhole: bool  // the kernel never takes just a part of what it is given

    constructor (incoming: Data, takesWhole: bool)
      ensures this.incoming == incoming && outgoing == [] && this.takesWhole == takesWhole && calls == []
    {
      calls := [];
      this.incoming, outgoing, this.takesWhole := incoming, [], takesWhole;
    }

    ghost function Now(): Net
      reads this
    {
      Net(incoming, outgoing, calls)
    }

    // ::read: an error, nothing, or one to n of the next bytes.
    method Read(buf: array<byte>, at: nat, n: nat) returns (rc: int)
      requires at + n <= buf.Length
      modifies this`incoming, this`calls, buf
      ensures calls == old(calls) + [DidRead(n, rc)]
      ensures -1 <= rc <= n && rc <= |old(incoming)|
      ensures rc <= 0 ==> incoming == old(incoming) && buf[..] == old(buf[..])
      ensures rc > 0 ==> incoming == old(incoming)[rc..]
      ensures rc > 0 ==> buf[..at + rc] == old(buf[..at]) + old(incoming)[..rc]
    {
      rc := *;
      if rc < -1 || rc > n || rc > |incoming| {
        rc := -1;
      }
      var i := 0;
      while i < rc
        invariant 0 <= i && (i <= rc || rc < 0 == i)
        invariant incoming == old(incoming) && calls == old(calls)
        invariant rc <= 0 ==> buf[..] == old(buf[..])
        invariant buf[..at + i] == old(buf[..at]) + incoming[..i]
      {
        ghost var before := buf[..at + i];
        buf[at + i] := incoming[i];
        assert buf[..at + i + 1] == before + [incoming[i]];
        assert incoming[..i + 1] == incoming[..i] + [incoming[i]];
        i := i + 1;
      }
      if rc > 0 {
        incoming := incoming[rc..];
      }
      calls := calls + [DidRead(n, rc)];
    }

    // ::write of at least one byte: it takes one byte or more. A failing write stops the process.
    method Write(bytes: Data) returns (rc: nat)
      requires bytes != []
      modifies this`outgoing, this`calls
      ensures 1 <= rc <= |bytes| && (takesWhole ==> rc == |bytes|)
      ensures outgoing == old(outgoing) + bytes[..rc] && calls == old(calls) + [DidWrite(|bytes|, rc)]
    {
      rc := *;
      if takesWhole || rc < 1 || rc > |bytes| {
        rc := |bytes|;
      }
      outgoing := outgoing + bytes[..rc];
      calls := calls + [DidWrite(|bytes|, rc)];
    }

    // ::poll: a positive result reports at least one event.
    method Poll() returns (rc: int, revents: int)
      ensures rc > 0 ==> revents != 0
    {
      rc := *;
      revents := *;
      if revents == 0 {
        revents := 1;
      }
    }

    // ::select for reading.
    method Select() returns (rc: int)
      modifies this`calls
      ensures -1 <= rc <= 1 && calls == old(calls) + [Selected(rc)]
    {
      rc := *;
      if rc < -1 || rc > 1 {
        rc := 0;
      }
      calls := calls + [Selected(rc)];
    }

    // Whether the ten seconds of a read are over.
    method Clock() returns (over: bool)
      modifies this`calls
      ensures calls == old(calls) + [Clocked(over)]
    {
      over := *;
      calls := calls + [Clocked(over)];
    }
  }

  // An error of select counts as new data.
  method NewDataInSocket(ep: Endpoint) returns (r: bool)
    modifies ep`calls
    ensures exists rc :: ep.calls == old(ep.calls) + [Selected(rc)] && (r <==> rc != 0)
  {
    var rc := ep.Select();
    r := if 0 == rc then false else true;
  }

  // The contract of poll leaves no way for this to say yes, so a read of no bytes ends the loop
  // below whatever the peer does.
  method SocketIsValid(ep: Endpoint) returns (valid: bool)
    ensures !valid
  {
    var rc, revents := ep.Poll();
    if 0 > rc || 0 == rc {
      return false;
    }
    return 0 == revents;
  }

  // ---------- Writing ----------

  // What a sequence of ::write calls puts on the wire when each starts at the first byte again.
  function Echo(bytes: Data, takes: seq<nat>): Data
    requires forall k | 0 <= k < |takes| :: takes[k] <= |bytes|
  {
    if takes == [] then []
    else Echo(bytes, takes[..|takes| - 1]) + bytes[..takes[|takes| - 1]]
  }

  function Sum(takes: seq<nat>): nat {
    if takes == [] then 0 else Sum(takes[..|takes| - 1]) + takes[|takes| - 1]
  }

  // The calls one run of the loop makes for a packet of n bytes: it stops as soon as the return
  // codes add up to n.
  predicate LoopTakes(n: nat, takes: seq<nat>) {
    && (forall k | 0 <= k < |takes| :: 1 <= takes[k] <= n)
    && Sum(takes) >= n
    && (takes != [] ==> Sum(takes[..|takes| - 1]) < n)
  }

  function WriteCalls(n: nat, takes: seq<nat>): seq<Call> {
    seq(|takes|, k requires 0 <= k < |takes| => DidWrite(n, takes[k]))
  }

  // What writing these bytes in one run of the loop does to the wire, and the calls it makes.
  ghost predicate OnWire(before: Data, after: Data, bytes: Data, takesWhole: bool, calls: seq<Call>) {
    && (exists takes: seq<nat> ::
          LoopTakes(|bytes|, takes) && after == before + Echo(bytes, takes) && calls == WriteCalls(|bytes|, takes))
    && (takesWhole ==> after == before + bytes)
  }

  lemma NothingOnWire(before: Data, takesWhole: bool)
    ensures OnWire(before, before, [], takesWhole, [])
  {
    assert LoopTakes(0, []) && before == before + Echo([], []) && [] == WriteCalls(0, []);
  }

  lemma SilentAfterwards(net: Net, takesWhole: bool)
    ensures OnWire(net.outgoing, net.outgoing, [], takesWhole, net.calls[|net.calls|..])
  {
    NothingOnWire(net.outgoing, takesWhole);
    assert net.calls[|net.calls|..] == [];
  }

  // Socket::write as written.
  method Write(ep: Endpoint, data: PacketData) returns (written: nat, ghost takes: seq<nat>)
    requires data.Valid()
    modifies ep`outgoing, ep`calls
    ensures LoopTakes(|data.Bytes()|, takes) && written == Sum(takes)
    ensures ep.outgoing == old(ep.outgoing) + Echo(data.Bytes(), takes)
    ensures ep.takesWhole ==> written == |data.Bytes()|
    ensures ep.calls == old(ep.calls) + WriteCalls(|data.Bytes()|, takes)
    ensures OnWire(old(ep.outgoing), ep.outgoing, data.Bytes(), ep.takesWhole, ep.calls[|old(ep.calls)|..])
    ensures |data.Bytes()| > 0 ==> written > 0
  {
    hide Echo, Sum, SoFar, LoopTakes, WriteCalls;
    written := 0;
    takes := [];
    assert WriteCalls(data.size, []) == [] by { NoCalls(data.size); }
    var s := data.size;
    ghost var bytes := data.Bytes();
    NothingWritten(bytes, ep.takesWhole);
    while written < s
      invariant forall k | 0 <= k < |takes| :: takes[k] <= |bytes|
      invariant SoFar(bytes, takes, written, ep.takesWhole)
      invariant ep.outgoing == old(ep.outgoing) + Echo(bytes, takes)
      invariant ep.calls == old(ep.calls) + WriteCalls(|bytes|, takes)
      decreases s - written
    {
      var rc := ep.Write(data.data[..]);
      OneMore(bytes, takes, written, rc, ep.takesWhole);
      OneMoreCall(|bytes|, takes, rc);
      takes := takes + [rc];
      written := written + rc;
    }
    AllWritten(bytes, takes, written, ep.takesWhole);
    assert ep.calls[|old(ep.calls)|..] == WriteCalls(|bytes|, takes);
    assert OnWire(old(ep.outgoing), ep.outgoing, bytes, ep.takesWhole, WriteCalls(|bytes|, takes));
  }

  // ---------- Reading and writing in one tick ----------

  // Look for data, read a packet if there is any, and then write.
  ghost predicate Served(before: Net, now: Net, newData: bool, took: Data, sent: Data, takesWhole: bool) {
    && before.calls <= now.calls && before.incoming == took + now.incoming
    && var made := now.calls[|before.calls|..];
       exists k :: 0 <= k <= |made| && Looked(made[..k], newData, took)
                   && OnWire(before.outgoing, now.outgoing, sent, takesWhole, made[k..])
  }

  // Write, and then read a packet if one is awaited.
  ghost predicate Asked(before: Net, now: Net, sent: Data, awaits: bool, took: Data, takesWhole: bool) {
    && before.calls <= now.calls && before.incoming == took + now.incoming
    && var made := now.calls[|before.calls|..];
       exists k :: 0 <= k <= |made| && OnWire(before.outgoing, now.outgoing, sent, takesWhole, made[..k])
                   && (if awaits then PacketRan(made[k..], took) else k == |made|)
  }

  lemma LooksInVain(before: Net, now: Net, takesWhole: bool)
    requires now == before.(calls := before.calls + [Selected(0)])
    ensures Served(before, now, false, [], [], takesWhole)
  {
    hide OnWire, PacketRan;
    var made := now.calls[|before.calls|..];
    assert made == [Selected(0)] && made[..1] == made && made[1..] == [];
    assert Looked(made[..1], false, []);
    NothingOnWire(before.outgoing, takesWhole);
    assert before.incoming == [] + now.incoming;
  }

  lemma LooksReadsWrites(before: Net, read: Net, now: Net, rc: int, took: Data, sent: Data, takesWhole: bool)
    requires rc != 0 && before.calls + [Selected(rc)] <= read.calls && read.outgoing == before.outgoing
    requires before.incoming == took + read.incoming && PacketRan(read.calls[|before.calls| + 1..], took)
    requires read.calls <= now.calls && now.incoming == read.incoming
    requires OnWire(read.outgoing, now.outgoing, sent, takesWhole, now.calls[|read.calls|..])
    ensures Served(before, now, true, took, sent, takesWhole)
  {
    hide OnWire, PacketRan;
    var made, k := now.calls[|before.calls|..], |read.calls| - |before.calls|;
    assert made[..k] == read.calls[|before.calls|..] && made[k..] == now.calls[|read.calls|..];
    assert made[..k][1..] == read.calls[|before.calls| + 1..];
    assert made[0] == read.calls[|before.calls|] == (before.calls + [Selected(rc)])[|before.calls|];
    assert Looked(made[..k], true, took);
  }

  lemma WritesReads(before: Net, wrote: Net, now: Net, sent: Data, took: Data, takesWhole: bool)
    requires before.calls <= wrote.calls && wrote.incoming == before.incoming
    requires OnWire(before.outgoing, wrote.outgoing, sent, takesWhole, wrote.calls[|before.calls|..])
    requires wrote.calls <= now.calls && now.outgoing == wrote.outgoing
    requires wrote.incoming == took + now.incoming && PacketRan(now.calls[|wrote.calls|..], took)
    ensures Asked(before, now, sent, true, took, takesWhole)
  {
    hide OnWire, PacketRan;
    var made, k := now.calls[|before.calls|..], |wrote.calls| - |before.calls|;
    assert made[..k] == wrote.calls[|before.calls|..] && made[k..] == now.calls[|wrote.calls|..];
  }

  lemma OnlyWrites(before: Net, now: Net, sent: Data, takesWhole: bool)
    requires before.calls <= now.calls && now.incoming == before.incoming
    requires OnWire(before.outgoing, now.outgoing, sent, takesWhole, now.calls[|before.calls|..])
    ensures Asked(before, now, sent, false, [], takesWhole)
  {
    hide OnWire;
    var made := now.calls[|before.calls|..];
    assert made[..|made|] == made && before.incoming == [] + now.incoming;
  }

  lemma DoesNothing(net: Net, takesWhole: bool)
    ensures Asked(net, net, [], false, [], takesWhole)
  {
    hide OnWire;
    NothingOnWire(net.outgoing, takesWhole);
    assert net.calls[|net.calls|..] == [];
    OnlyWrites(net, net, [], takesWhole);
  }

  predicate SoFar(bytes: Data, takes: seq<nat>, written: nat, whole: bool) {
    && (forall k | 0 <= k < |takes| :: 1 <= takes[k] <= |bytes| && (whole ==> takes[k] == |bytes|))
    && written == Sum(takes)
    && (takes != [] ==> Sum(takes[..|takes| - 1]) < |bytes|)
  }

  lemma NoCalls(n: nat)
    ensures WriteCalls(n, []) == []
  {
  }

  lemma OneMoreCall(n: nat, takes: seq<nat>, rc: nat)
    ensures WriteCalls(n, takes + [rc]) == WriteCalls(n, takes) + [DidWrite(n, rc)]
  {
  }

  lemma {:induction false} NothingWritten(bytes: Data, whole: bool)
    ensures Echo(bytes, []) == [] && SoFar(bytes, [], 0, whole)
  {
  }

  lemma {:induction false} OneMore(bytes: Data, takes: seq<nat>, written: nat, rc: nat, whole: bool)
    requires SoFar(bytes, takes, written, whole) && written < |bytes|
    requires 1 <= rc <= |bytes| && (whole ==> rc == |bytes|)
    ensures SoFar(bytes, takes + [rc], written + rc, whole)
    ensures Echo(bytes, takes + [rc]) == Echo(bytes, takes) + bytes[..rc]
  {
    assert (takes + [rc])[..|takes|] == takes;
  }

  lemma {:induction false} AllWritten(bytes: Data, takes: seq<nat>, written: nat, whole: bool)
    requires SoFar(bytes, takes, written, whole) && written >= |bytes|
    ensures LoopTakes(|bytes|, takes) && written == Sum(takes)
    ensures whole ==> Echo(bytes, takes) == bytes && written == |bytes|
  {
    if whole {
      WholeWrites(bytes, takes);
    }
  }

  lemma {:induction false} WholeWrites(bytes: Data, takes: seq<nat>)
    requires LoopTakes(|bytes|, takes)
    requires forall k | 0 <= k < |takes| :: takes[k] == |bytes|
    ensures Echo(bytes, takes) == bytes && Sum(takes) == |bytes|
  {
    if takes != [] {
      var init := takes[..|takes| - 1];
      if init != [] {
        SumAtLeastFirst(init);
      }
      assert init == [] && bytes[..|bytes|] == bytes;
    }
  }

  lemma {:induction false} EchoLength(bytes: Data, takes: seq<nat>)
    requires forall k | 0 <= k < |takes| :: takes[k] <= |bytes|
    ensures |Echo(bytes, takes)| == Sum(takes)
  {
    if takes != [] {
      EchoLength(bytes, takes[..|takes| - 1]);
    }
  }

  // Call k puts the same bytes on the wire as a call would that went on where the last one stopped.
  predicate Lands(bytes: Data, takes: seq<nat>, k: nat)
    requires k < |takes|
  {
    var at := Sum(takes[..k]);
    at + takes[k] <= |bytes| && bytes[..takes[k]] == bytes[at..at + takes[k]]
  }

  lemma LandsAsBefore(bytes: Data, takes: seq<nat>, k: nat)
    requires k < |takes| - 1
    ensures Lands(bytes, takes[..|takes| - 1], k) == Lands(bytes, takes, k)
  {
    assert takes[..|takes| - 1][..k] == takes[..k];
  }

  lemma LastTake(bytes: Data, takes: seq<nat>)
    requires takes != [] && forall k | 0 <= k < |takes| :: takes[k] <= |bytes|
    ensures var n := |takes| - 1;
            && Sum(takes) == Sum(takes[..n]) + takes[n]
            && Echo(bytes, takes) == Echo(bytes, takes[..n]) + bytes[..takes[n]]
            && |Echo(bytes, takes[..n])| == Sum(takes[..n])
  {
    EchoLength(bytes, takes[..|takes| - 1]);
  }

  lemma {:induction false} LastLands(bytes: Data, takes: seq<nat>)
    requires takes != [] && forall k | 0 <= k < |takes| :: takes[k] <= |bytes|
    requires Sum(takes) <= |bytes|
    ensures var n := |takes| - 1;
            Echo(bytes, takes) == bytes[..Sum(takes)] <==>
              Echo(bytes, takes[..n]) == bytes[..Sum(takes[..n])] && Lands(bytes, takes, n)
  {
    hide Echo, Sum, Lands;
    LastTake(bytes, takes);
    var n := |takes| - 1;
    LandsMeans(bytes, takes, n);
    NextPiece(bytes, Echo(bytes, takes[..n]), takes[n]);
  }

  lemma LandsMeans(bytes: Data, takes: seq<nat>, k: nat)
    requires k < |takes| && Sum(takes[..k]) + takes[k] <= |bytes|
    ensures var at := Sum(takes[..k]); Lands(bytes, takes, k) <==> bytes[..takes[k]] == bytes[at..at + takes[k]]
  {
  }

  lemma NextPiece(bytes: Data, sent: Data, n: nat)
    requires |sent| + n <= |bytes|
    ensures sent + bytes[..n] == bytes[..|sent| + n] <==>
            sent == bytes[..|sent|] && bytes[..n] == bytes[|sent|..|sent| + n]
  {
    assert bytes[..|sent| + n] == bytes[..|sent|] + bytes[|sent|..|sent| + n];
    Pieces(sent, bytes[..n], bytes[..|sent|], bytes[|sent|..|sent| + n]);
  }

  lemma Pieces(a: Data, b: Data, c: Data, d: Data)
    requires |a| == |c|
    ensures a + b == c + d <==> a == c && b == d
  {
    if a + b == c + d {
      assert a == (a + b)[..|a|] == (c + d)[..|c|] == c;
      assert b == (a + b)[|a|..] == (c + d)[|c|..] == d;
    }
  }

  lemma {:induction false} EchoSoFarIff(bytes: Data, takes: seq<nat>)
    requires forall k | 0 <= k < |takes| :: takes[k] <= |bytes|
    requires Sum(takes) <= |bytes|
    ensures Echo(bytes, takes) == bytes[..Sum(takes)] <==> forall k | 0 <= k < |takes| :: Lands(bytes, takes, k)
  {
    if takes != [] {
      var n := |takes| - 1;
      EchoSoFarIff(bytes, takes[..n]);
      LastLands(bytes, takes);
      hide Echo, Lands;
      forall k | 0 <= k < n
        ensures Lands(bytes, takes[..n], k) == Lands(bytes, takes, k)
      {
        LandsAsBefore(bytes, takes, k);
      }
      assert (forall k | 0 <= k < |takes| :: Lands(bytes, takes, k)) <==>
             Lands(bytes, takes, n) && forall k | 0 <= k < n :: Lands(bytes, takes[..n], k);
    }
  }

  // For every packet and every pattern of partial writes, the wire holds exactly the packet if and
  // only if the counts add up to its size and each call repeats the bytes that were due.
  lemma {:induction false} EchoIff(bytes: Data, takes: seq<nat>)
    requires LoopTakes(|bytes|, takes)
    ensures Echo(bytes, takes) == bytes <==>
            Sum(takes) == |bytes| && forall k | 0 <= k < |takes| :: Lands(bytes, takes, k)
  {
    EchoLength(bytes, takes);
    if Sum(takes) == |bytes| {
      EchoSoFarIff(bytes, takes);
      assert bytes[..|bytes|] == bytes;
    }
  }

  lemma {:induction false} EchoOfTwo(bytes: Data, a: nat, b: nat)
    requires a <= |bytes| && b <= |bytes|
    ensures Echo(bytes, [a, b]) == bytes[..a] + bytes[..b]
    ensures Sum([a, b]) == a + b && Sum([a, b][..1]) == a
  {
    var takes: seq<nat> := [a, b];
    assert takes[..1] == [a] && [a][..0] == [];
    assert Echo(bytes, [a]) == Echo(bytes, []) + bytes[..a] == bytes[..a];
    assert Sum([a]) == a;
  }

  // A packet is safe from every pattern of partial writes if and only if there is nothing to split.
  lemma {:induction false} PacketHarmlessIff(bytes: Data)
    ensures (forall takes | LoopTakes(|bytes|, takes) :: Echo(bytes, takes) == bytes) <==> |bytes| <= 1
  {
    var n := |bytes|;
    if n <= 1 {
      forall takes | LoopTakes(n, takes)
        ensures Echo(bytes, takes) == bytes
      {
        WholeWrites(bytes, takes);
      }
    } else {
      var takes: seq<nat> := [n - 1, n];
      EchoOfTwo(bytes, n - 1, n);
      assert LoopTakes(n, takes) && Echo(bytes, takes) != bytes;
    }
  }

  // The packet that grants access survives being cut before its last byte, which repeats the first.
  lemma GrantSurvivesCut()
    ensures LoopTakes(4, [3, 1])
    ensures Echo(P.PrepareAuthReply(true), [3, 1]) == P.PrepareAuthReply(true)
  {
    hide P.GetSize;
    var bytes := P.PrepareAuthReply(true);
    assert bytes == [0, 4, 1, 0];
    var takes: seq<nat> := [3, 1];
    EchoOfTwo(bytes, 3, 1);
    assert bytes[..3] == [0, 4, 1] && bytes[..1] == [0];
  }

  lemma {:induction false} FirstByteRecurs(bytes: Data, takes: seq<nat>)
    requires bytes != [] && LoopTakes(|bytes|, takes)
    requires Echo(bytes, takes) == bytes && takes != [] && takes[0] < |bytes|
    ensures bytes[0] in bytes[1..]
  {
    EchoIff(bytes, takes);
    assert [takes[0]][..0] == [];
    assert takes[..1] == [takes[0]] && Sum(takes[..1]) == takes[0];
    assert |takes| >= 2;
    assert Lands(bytes, takes, 1);
    assert bytes[..takes[1]][0] == bytes[0] == bytes[takes[0]] == bytes[1..][takes[0] - 1];
  }

  // So for a packet whose first byte does not occur in it again, the wire holds exactly the packet
  // if and only if the first call takes all of it.
  lemma {:induction false} WrittenOnceIff(bytes: Data, takes: seq<nat>)
    requires bytes != [] && LoopTakes(|bytes|, takes)
    requires bytes[0] !in bytes[1..]
    ensures Echo(bytes, takes) == bytes <==> takes[0] == |bytes|
  {
    var n := |bytes|;
    assert takes != [];
    assert |takes| == 1 ==> takes[..0] == [] && Sum(takes) == takes[0];
    if takes[0] == n {
      if |takes| >= 2 {
        SumAtLeastFirst(takes[..|takes| - 1]);
      }
      assert takes == [n];
      assert takes[..0] == [] && bytes[..n] == bytes;
    } else if Echo(bytes, takes) == bytes {
      FirstByteRecurs(bytes, takes);
    }
  }

  lemma {:induction false} SumAtLeastFirst(takes: seq<nat>)
    requires takes != []
    ensures Sum(takes) >= takes[0]
  {
    if |takes| > 1 {
      SumAtLeastFirst(takes[..|takes| - 1]);
    }
  }

  // Over all packets of a given length, a pattern of partial writes is harmless if and only if its
  // first call takes everything.
  lemma {:induction false} PatternHarmlessIff(n: nat, takes: seq<nat>)
    requires n > 0 && LoopTakes(n, takes)
    ensures takes != []
    ensures (forall bytes: Data | |bytes| == n :: Echo(bytes, takes) == bytes) <==> takes[0] == n
  {
    assert takes != [];
    if takes[0] == n {
      if |takes| >= 2 {
        SumAtLeastFirst(takes[..|takes| - 1]);
      }
      assert takes == [n];
      forall bytes: Data | |bytes| == n
        ensures Echo(bytes, takes) == bytes
      {
        assert takes[..0] == [] && bytes[..n] == bytes;
      }
    } else {
      var bytes: Data := seq(n, i => if i == 0 then 1 else 0);
      assert bytes[0] !in bytes[1..];
      WrittenOnceIff(bytes, takes);
      assert |bytes| == n && Echo(bytes, takes) != bytes;
    }
  }

  // A reset request cut in two arrives as something else.
  lemma ResetRequestCut()
    ensures LoopTakes(3, [1, 2])
    ensures Echo(P.PrepareResetRequest(), [1, 2]) == [0, 0, 3]
    ensures Echo(P.PrepareResetRequest(), [1, 2]) != P.PrepareResetRequest()
  {
    var bytes := P.PrepareResetRequest();
    assert bytes == [0, 3, 2];
    var takes: seq<nat> := [1, 2];
    EchoOfTwo(bytes, 1, 2);
    assert bytes[..1] == [0] && bytes[..2] == [0, 3];
  }

  // The loop as it was evidently meant: each call continues where the last one stopped.
  method WriteFromOffset(ep: Endpoint, data: PacketData) returns (written: nat)
    requires data.Valid()
    modifies ep`outgoing, ep`calls
    ensures written == |data.Bytes()|
    ensures ep.outgoing == old(ep.outgoing) + data.Bytes()
  {
    written := 0;
    ghost var bytes := data.Bytes();
    while written < data.size
      invariant written <= data.size == |bytes|
      invariant ep.outgoing == old(ep.outgoing) + bytes[..written]
    {
      var rc := ep.Write(data.data[written..]);
      assert bytes[..written + rc] == bytes[..written] + bytes[written..][..rc];
      written := written + rc;
    }
    assert bytes[..written] == bytes;
  }

  // ---------- Reading ----------

  // The sized Socket::read: all the bytes or none. The ten-second limit may strike at any turn.
  method SizedRead(ep: Endpoint, data: PacketData, size: nat) returns (rc: int, ghost taken: Data)
    requires data.Valid()
    modifies ep`incoming, ep`calls, data
    ensures data.Valid() && (data.data == null || fresh(data.data))
    ensures old(ep.incoming) == taken + ep.incoming
    ensures if |taken| < size then rc == -1 && data.Bytes() == []
            else rc == |taken| == size && data.Bytes() == taken
    ensures old(ep.calls) <= ep.calls
    ensures var made := ep.calls[|old(ep.calls)|..];
            Ran(size, made, |taken|) && (rc == -1 <==> Failed(made))
  {
    hide Missing, Ran, Failed;
    ghost var made: seq<Call> := [];
    assert Missing(size, made) == Some(size) by { NoTurns(size); }
    taken := [];
    var r := 0;
    var buf := new byte[size];
    data.Clear();
    ghost var stream := ep.incoming;
    while r < size
      invariant 0 <= r <= size && r <= |stream|
      invariant stream == taken + ep.incoming && |taken| == r && buf[..r] == taken
      invariant data.Valid() && data.Bytes() == [] && data.data == null
      invariant ep.calls == old(ep.calls) + made && Missing(size, made) == Some(size - r)
      decreases size - r
    {
      var over := ep.Clock();
      if over {
        Struck(size, old(ep.calls), made, r);
        return -1, taken;
      }
      ghost var left := ep.incoming;
      var got := ep.Read(buf, r, size - r);
      ghost var turn := made + [Clocked(false)] + [DidRead(size - r, got)];
      assert ep.calls == old(ep.calls) + turn;
      if got <= 0 {
        CameShort(size, old(ep.calls), made, r, got);
      }
      if got < 0 {
        data.Clear();
        return -1, taken;
      }
      assert got > 0 ==> left == left[..got] + ep.incoming;
      taken := taken + left[..got];
      r := r + got;
      if 0 == got {
        var valid := SocketIsValid(ep);
        if !valid {
          return -1, taken;
        }
      } else {
        OneMoreTurn(size, made, size - (r - got), got);
        made := turn;
      }
    }
    data.SetData(buf, size);
    AllCame(size, old(ep.calls), made);
    return r, taken;
  }

  lemma {:induction false} NoTurns(size: nat)
    ensures Missing(size, []) == Some(size)
  {
  }

  // The three ways in which the loop ends.
  lemma {:induction false} AllCame(size: nat, earlier: seq<Call>, made: seq<Call>)
    requires Missing(size, made) == Some(0)
    ensures Ran(size, (earlier + made)[|earlier|..], size) && !Failed((earlier + made)[|earlier|..])
  {
    hide Missing, Failed;
    assert (earlier + made)[|earlier|..] == made;
    RanShortIff(size, made, size);
  }

  lemma {:induction false} Struck(size: nat, earlier: seq<Call>, made: seq<Call>, n: nat)
    requires n < size && Missing(size, made) == Some(size - n)
    ensures var made := (earlier + made + [Clocked(true)])[|earlier|..]; Ran(size, made, n) && Failed(made)
  {
    hide Missing, Ran, Failed;
    assert (earlier + made + [Clocked(true)])[|earlier|..] == made + [Clocked(true)];
    ClockStruck(size, made, n);
    RanShortIff(size, made + [Clocked(true)], n);
  }

  lemma {:induction false} CameShort(size: nat, earlier: seq<Call>, made: seq<Call>, n: nat, rc: int)
    requires n < size && Missing(size, made) == Some(size - n) && rc <= 0
    ensures var all := earlier + (made + [Clocked(false)] + [DidRead(size - n, rc)]);
            Ran(size, all[|earlier|..], n) && Failed(all[|earlier|..])
  {
    hide Missing, Ran, Failed;
    var turn := made + [Clocked(false)] + [DidRead(size - n, rc)];
    assert (earlier + turn)[|earlier|..] == turn;
    NothingCame(size, made, n, rc);
    RanShortIff(size, turn, n);
  }

  // PSCProxyProtocol::read. The bytes it has taken when it ends decide how it ended.
  method ReadPacket(ep: Endpoint, data: PacketData) returns (rc: int, ghost taken: Data)
    requires data.Valid()
    modifies ep`incoming, ep`calls, data
    ensures data.Valid() && (data.data == null || data.data == old(data.data) || fresh(data.data))
    ensures |taken| <= Need(taken) && old(ep.incoming) == taken + ep.incoming
    ensures data.Bytes() == ResultOf(taken).Left(old(data.Bytes()))
    ensures if |taken| < Need(taken) then rc < 0 else rc == |taken|
    ensures old(ep.calls) <= ep.calls
    ensures var made := ep.calls[|old(ep.calls)|..];
            PacketRan(made, taken) && (rc < 0 <==> Failed(made))
  {
    hide P.GetSize, ReadResult.Left, Need, ResultOf, Ran, PacketRan, Failed;
    var header := new PacketData();
    rc, taken := SizedRead(ep, header, P.HEADER);
    ghost var first := ep.calls[|old(ep.calls)|..];
    ghost var before := data.Bytes();
    if 0 > rc {
      MissingHeader(taken, before);
      HeaderRan(first, taken);
      return;
    }
    data.Assign(header);
    if P.GetSize(header.data[0], header.data[1]) > P.HEADER {
      ghost var between := ep.calls;
      rc, taken := ReadBody(ep, data, taken, before);
      assert ep.calls[|old(ep.calls)|..] == first + ep.calls[|between|..];
      BodyRan(first, ep.calls[|between|..], taken);
      PacketShortIff(first + ep.calls[|between|..], taken);
    } else {
      HeaderAlone(taken, before);
      HeaderRan(first, taken);
      rc := data.size;
    }
  }

  // The rest of read once data holds the header, when that declares a body.
  method ReadBody(ep: Endpoint, data: PacketData, ghost h: Data, ghost before: Data)
    returns (rc: int, ghost taken: Data)
    requires data.Valid() && data.Bytes() == h && |h| == P.HEADER < P.GetSize(h[0], h[1])
    modifies ep`incoming, ep`calls, data
    ensures data.Valid() && (data.data == old(data.data) || fresh(data.data))
    ensures |h| <= |taken| <= Need(taken) && P.HEADER < Need(taken) && taken[..P.HEADER] == h
    ensures old(ep.calls) <= ep.calls
    ensures Ran(Need(taken) - P.HEADER, ep.calls[|old(ep.calls)|..], |taken| - P.HEADER)
    ensures old(ep.incoming) == taken[P.HEADER..] + ep.incoming
    ensures data.Bytes() == ResultOf(taken).Left(before)
    ensures if |taken| < Need(taken) then rc < 0 else rc == |taken|
  {
    hide P.GetSize, ReadResult.Left, Need, ResultOf, Ran, Failed;
    var size := P.GetSize(data.data[0], data.data[1]);
    var body := new PacketData();
    ghost var b;
    rc, b := SizedRead(ep, body, size - P.HEADER);
    taken := h + b;
    BodyTaken(h, b, before);
    if 0 > rc {
      return;
    }
    var whole := data.Plus(body);
    data.Assign(whole);
    rc := data.size;
  }

  lemma MissingHeader(taken: Data, before: Data)
    requires |taken| < P.HEADER
    ensures |taken| < Need(taken) && ResultOf(taken).Left(before) == before
  {
  }

  lemma HeaderAlone(h: Data, before: Data)
    requires |h| == P.HEADER && P.GetSize(h[0], h[1]) <= P.HEADER
    ensures |h| == Need(h) && ResultOf(h).Left(before) == h
  {
    hide P.GetSize;
  }

  lemma BodyTaken(h: Data, body: Data, before: Data)
    requires |h| == P.HEADER < P.GetSize(h[0], h[1]) && |body| <= P.GetSize(h[0], h[1]) - P.HEADER
    ensures |h + body| <= Need(h + body) == P.GetSize(h[0], h[1])
    ensures ResultOf(h + body).Left(before) == if |h + body| == Need(h + body) then h + body else h
  {
    hide P.GetSize;
    NeedOfPrefix(h, h + body);
    assert (h + body)[..P.HEADER] == h;
  }

  // Reading packet after packet, for as long as it goes well: what arrives is the start of what the
  // stream decodes to, and, of a stream that starts with the packets sent, the first of those.
  method ReadPackets(ep: Endpoint, n: nat, ghost sent: seq<Data>, ghost more: Data) returns (ok: bool, got: seq<Data>)
    requires forall p | p in sent :: IsPacket(p)
    requires n <= |sent| && ep.incoming == Flatten(sent) + more
    modifies ep`incoming, ep`calls
    ensures |got| <= n && (ok <==> |got| == n)
    ensures old(ep.calls) <= ep.calls && (ok <==> !Failed(ep.calls[|old(ep.calls)|..]))
    ensures got == sent[..|got|] && got <= Decode(old(ep.incoming))
    ensures ok ==> ep.incoming == Flatten(sent[n..]) + more
    ensures ok ==> Decode(old(ep.incoming)) == got + Decode(ep.incoming)
  {
    hide IsPacket, Need, ResultOf, Decode, Flatten, PacketRan;
    var data := new PacketData();
    ghost var stream := ep.incoming;
    got := [];
    assert Flatten(got) + ep.incoming == stream by { FlattenNone(ep.incoming); }
    DecodeFrom([], stream);
    while |got| < n
      invariant |got| <= n && data.Valid() && fresh(data)
      invariant Flatten(got) + ep.incoming == stream
      invariant old(ep.calls) <= ep.calls && !Failed(ep.calls[|old(ep.calls)|..])
      invariant forall p | p in got :: IsPacket(p)
    {
      ghost var left := ep.incoming;
      ghost var before := data.Bytes();
      ghost var made := ep.calls[|old(ep.calls)|..];
      var rc, taken := ReadPacket(ep, data);
      ghost var all := ep.calls[|old(ep.calls)|..];
      assert all[..|made|] == made && all[|made|..] == ep.calls[|old(ep.calls)| + |made|..];
      FailedParts(all, |made|);
      if 0 > rc {
        StreamRoundTrip(got, left, sent, more);
        DecodeFrom(got, left);
        return false, got;
      }
      GotIs(taken, before);
      FlattenAppend(got, taken);
      assert Flatten(got + [taken]) + ep.incoming == Flatten(got) + left;
      got := got + [data.data[..]];
    }
    StreamRoundTrip(got, ep.incoming, sent, more);
    DecodeFrom(got, ep.incoming);
    return true, got;
  }

  lemma FlattenNone(stream: Data)
    ensures Flatten([]) + stream == stream
  {
  }

  lemma GotIs(taken: Data, before: Data)
    requires Need(taken) == |taken|
    ensures IsPacket(taken) && ResultOf(taken) == Got(taken)
    ensures ResultOf(taken).Left(before) == taken && taken != []
  {
  }
}
