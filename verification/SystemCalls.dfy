// What the operating system answered: the record that the loops over system calls are judged by.
module SystemCalls {
  import opened Bytes
  import opened Protocol
  import opened Framing

  // The answers of select, of the clock that limits a read, and of ::read and ::write for so many
  // bytes.
  datatype Call = Selected(rc: int) | Clocked(over: bool) | DidRead(asked: nat, rc: int) | DidWrite(given: nat, rc: int)

  // The clock struck, or a read brought nothing.
  predicate Fails(c: Call) {
    c == Clocked(true) || (c.DidRead? && c.rc <= 0)
  }

  predicate Failed(calls: seq<Call>) {
    exists k :: 0 <= k < |calls| && Fails(calls[k])
  }

  // The bytes still missing after complete turns of the sized read: in each turn the clock has not
  // struck, and a read for all the missing bytes has brought some of them.
  function Missing(size: nat, calls: seq<Call>): Option<nat> {
    if calls == [] then Some(size)
    else if |calls| == 1 then None
    else
      var n := |calls| - 2;
      match Missing(size, calls[..n])
      case None => None
      case Some(m) =>
        if calls[n] == Clocked(false) && calls[n + 1].DidRead? && calls[n + 1].asked == m && 0 < calls[n + 1].rc <= m
        then Some(m - calls[n + 1].rc) else None
  }

  // A sized read has made these calls and taken n bytes: it goes on until nothing is missing or
  // until the first call that fails.
  predicate Ran(size: nat, calls: seq<Call>, n: nat) {
    || (n == size && Missing(size, calls) == Some(0))
    || (n < size && |calls| >= 1 && Missing(size, calls[..|calls| - 1]) == Some(size - n)
        && calls[|calls| - 1] == Clocked(true))
    || (n < size && |calls| >= 2 && Missing(size, calls[..|calls| - 2]) == Some(size - n)
        && calls[|calls| - 2] == Clocked(false)
        && calls[|calls| - 1].DidRead? && calls[|calls| - 1].asked == size - n && calls[|calls| - 1].rc <= 0)
  }

  // One call of PSCProxyProtocol::read: a sized read for the header, and one for the body if the
  // header is complete and declares one.
  ghost predicate PacketRan(calls: seq<Call>, taken: Data) {
    if |taken| < HEADER || Need(taken) == HEADER then
      |taken| <= HEADER && Ran(HEADER, calls, |taken|)
    else
      exists k :: 0 <= k <= |calls| && Ran(HEADER, calls[..k], HEADER)
                  && Ran(Need(taken) - HEADER, calls[k..], |taken| - HEADER)
  }

  lemma {:induction false} OneMoreTurn(size: nat, calls: seq<Call>, m: nat, rc: int)
    requires Missing(size, calls) == Some(m) && 0 < rc <= m
    ensures Missing(size, calls + [Clocked(false)] + [DidRead(m, rc)]) == Some(m - rc)
  {
    var all := calls + [Clocked(false)] + [DidRead(m, rc)];
    assert all[..|all| - 2] == calls;
  }

  lemma {:induction false} ClockStruck(size: nat, calls: seq<Call>, n: nat)
    requires n < size && Missing(size, calls) == Some(size - n)
    ensures Ran(size, calls + [Clocked(true)], n)
  {
    assert (calls + [Clocked(true)])[..|calls|] == calls;
  }

  lemma {:induction false} NothingCame(size: nat, calls: seq<Call>, n: nat, rc: int)
    requires n < size && Missing(size, calls) == Some(size - n) && rc <= 0
    ensures Ran(size, calls + [Clocked(false)] + [DidRead(size - n, rc)], n)
  {
    var all := calls + [Clocked(false)] + [DidRead(size - n, rc)];
    assert all[..|all| - 2] == calls;
  }

  lemma {:induction false} TurnsDoNotFail(size: nat, calls: seq<Call>)
    requires Missing(size, calls).Some?
    ensures !Failed(calls)
  {
    if calls != [] {
      var n := |calls| - 2;
      TurnsDoNotFail(size, calls[..n]);
      forall k | 0 <= k < |calls|
        ensures !Fails(calls[k])
      {
        if k < n {
          assert calls[..n][k] == calls[k];
        }
      }
    }
  }

  // A sized read falls short exactly when the clock struck or a read brought nothing.
  lemma RanShortIff(size: nat, calls: seq<Call>, n: nat)
    requires Ran(size, calls, n)
    ensures n <= size && (n < size <==> Failed(calls))
  {
    if n == size && Missing(size, calls) == Some(0) {
      TurnsDoNotFail(size, calls);
    } else {
      assert Fails(calls[|calls| - 1]);
    }
  }

  lemma FailedParts(calls: seq<Call>, k: nat)
    requires k <= |calls|
    ensures Failed(calls) <==> Failed(calls[..k]) || Failed(calls[k..])
  {
    if Failed(calls) {
      var j :| 0 <= j < |calls| && Fails(calls[j]);
      if j < k {
        assert Fails(calls[..k][j]);
      } else {
        assert Fails(calls[k..][j - k]);
      }
    }
    if Failed(calls[..k]) {
      var j :| 0 <= j < k && Fails(calls[..k][j]);
      assert Fails(calls[j]);
    }
    if Failed(calls[k..]) {
      var j :| 0 <= j < |calls| - k && Fails(calls[k..][j]);
      assert Fails(calls[k + j]);
    }
  }

  // Reading a packet fails exactly when the clock struck or a read brought nothing.
  lemma PacketShortIff(calls: seq<Call>, taken: Data)
    requires PacketRan(calls, taken)
    ensures |taken| < Need(taken) <==> Failed(calls)
  {
    hide GetSize, Ran;
    if |taken| < HEADER || Need(taken) == HEADER {
      RanShortIff(HEADER, calls, |taken|);
    } else {
      var k :| 0 <= k <= |calls| && Ran(HEADER, calls[..k], HEADER)
               && Ran(Need(taken) - HEADER, calls[k..], |taken| - HEADER);
      RanShortIff(HEADER, calls[..k], HEADER);
      RanShortIff(Need(taken) - HEADER, calls[k..], |taken| - HEADER);
      FailedParts(calls, k);
    }
  }

  // The two parts of reading a packet.
  lemma HeaderRan(calls: seq<Call>, taken: Data)
    requires Ran(HEADER, calls, |taken|) && |taken| <= HEADER
    requires |taken| < HEADER || Need(taken) == HEADER
    ensures PacketRan(calls, taken)
  {
  }

  lemma BodyRan(header: seq<Call>, body: seq<Call>, taken: Data)
    requires HEADER <= |taken| && HEADER < Need(taken)
    requires Ran(HEADER, header, HEADER) && Ran(Need(taken) - HEADER, body, |taken| - HEADER)
    ensures PacketRan(header + body, taken)
  {
    hide Ran, GetSize;
    var all, k := header + body, |header|;
    assert all[..k] == header && all[k..] == body;
  }

  // A tick that looks before it reads: select is asked once, and a packet is read exactly when it
  // does not answer 0.
  ghost predicate Looked(calls: seq<Call>, newData: bool, taken: Data) {
    && calls != [] && calls[0].Selected?
    && (newData <==> calls[0].rc != 0)
    && (if newData then PacketRan(calls[1..], taken) else |calls| == 1)
  }
}
