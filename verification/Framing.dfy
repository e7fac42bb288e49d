// How PSCProxyProtocol::read cuts a byte stream into packets, and what it leaves behind when it
// fails half-way.
module Framing {
  import opened Bytes
  import opened Protocol

  // The number of bytes wanted in all once `got` has been received: the header first, then
  // whatever the header declares. A declared size below the header size asks for nothing more.
  function Need(got: Data): (n: nat)
    ensures HEADER <= n
  {
    if HEADER <= |got| && HEADER < GetSize(got[0], got[1]) then GetSize(got[0], got[1]) else HEADER
  }

  // What a successful read delivers.
  predicate IsPacket(p: Data) {
    |p| == Need(p)
  }

  // The result of one call of PSCProxyProtocol::read. Only Got is a non-negative return code.
  datatype ReadResult = Got(packet: Data) | NoHeader | HeaderOnly(header: Data) {
    predicate Valid() {
      match this
      case Got(p) => IsPacket(p)
      case NoHeader => true
      case HeaderOnly(h) => |h| == HEADER < Need(h)
    }

    // What the PacketData handed to read holds when it returns. A missing header leaves it as it
    // was before, a missing body leaves just the header in it.
    function Left(before: Data): Data {
      match this
      case Got(p) => p
      case NoHeader => before
      case HeaderOnly(h) => h
    }
  }

  // The result of a read that has taken these bytes off the stream when it ends.
  function ResultOf(taken: Data): ReadResult {
    if |taken| < HEADER then NoHeader
    else if |taken| < Need(taken) then HeaderOnly(taken[..HEADER])
    else Got(taken)
  }

  lemma ResultIsValid(taken: Data)
    requires |taken| <= Need(taken)
    ensures ResultOf(taken).Valid()
    ensures ResultOf(taken).Got? <==> IsPacket(taken)
  {
    if HEADER <= |taken| {
      NeedOfPrefix(taken[..HEADER], taken);
    }
  }

  function Flatten(packets: seq<Data>): Data {
    if packets == [] then [] else packets[0] + Flatten(packets[1..])
  }

  // The packets that repeated reads deliver from a stream that then dries up.
  function Decode(stream: Data): seq<Data>
    decreases |stream|
  {
    if |stream| < HEADER || |stream| < Need(stream) then []
    else [stream[..Need(stream)]] + Decode(stream[Need(stream)..])
  }

  // A packet is as long as its header says, and at least as long as its header.
  lemma NeedInNumerals(got: Data)
    ensures Need(got) ==
            if |got| < 3 || 256 * (got[0] as int) + got[1] as int < 3 then 3 else 256 * (got[0] as int) + got[1] as int
  {
    hide GetSize;
    if |got| >= 3 {
      GetSizeIsBigEndian(got[0], got[1]);
    }
  }

  lemma NeedOfPrefix(got: Data, stream: Data)
    requires HEADER <= |got| && got <= stream
    ensures Need(stream) == Need(got)
  {
    assert got[0] == stream[0] && got[1] == stream[1];
  }

  lemma SaneIsPacket(p: Data, t: PacketType)
    requires Sane(p, t)
    ensures IsPacket(p)
  {
  }

  lemma FrameIsPacket(t: PacketType, payload: Data)
    requires |payload| <= MAX_PAYLOAD
    ensures IsPacket(Frame(t, payload))
    ensures Frame(t, payload) != []
  {
    FrameRoundTrip(t, payload);
    var p := Frame(t, payload);
    assert Payload(p, t) == Some(payload);
    SaneIsPacket(p, t);
  }

  lemma RepliesArePackets(authorized: bool, data: Data)
    requires |data| <= MAX_PAYLOAD
    ensures IsPacket(PrepareAuthReply(authorized))
    ensures IsPacket(PrepareResetReply(data))
    ensures IsPacket(PrepareCmdReply(data))
  {
    hide IsPacket, Frame;
    FrameIsPacket(AuthReply, [if authorized then AUTHORIZED else UNAUTHORIZED]);
    FrameIsPacket(ResetReply, data);
    FrameIsPacket(CmdReply, data);
  }

  lemma RequestsArePackets(user: Data, pass: Data, cmd: Data)
    requires |user| + |pass| + 6 <= 0xFFFF && |cmd| <= MAX_PAYLOAD
    ensures IsPacket(PrepareAuth(user, pass))
    ensures IsPacket(PrepareResetRequest())
    ensures IsPacket(PrepareCmdRequest(cmd))
  {
    hide IsPacket, Frame;
    FrameIsPacket(AuthRequest, Credentials(user, pass));
    FrameIsPacket(ResetRequest, []);
    FrameIsPacket(CmdRequest, cmd);
  }

  // No packet is a proper prefix of another, so a stream splits in at most one way.
  lemma PacketPrefix(p: Data, after: Data, q: Data, rest: Data)
    requires IsPacket(p) && IsPacket(q)
    requires p + after == q + rest
    ensures p == q && after == rest
  {
    var all := p + after;
    NeedOfPrefix(p, all);
    NeedOfPrefix(q, q + rest);
    assert p == all[..|p|] && q == all[..|q|];
    assert after == all[|p|..] && rest == all[|q|..];
  }

  lemma {:induction false} DecodeStep(p: Data, rest: Data)
    requires IsPacket(p)
    ensures Decode(p + rest) == [p] + Decode(rest)
  {
    hide GetSize, Need;
    var all := p + rest;
    NeedOfPrefix(p, all);
    assert all[..|p|] == p && all[|p|..] == rest;
  }

  // A stream that starts with packets decodes to those packets and then to whatever follows them.
  lemma {:induction false} DecodeFrom(packets: seq<Data>, more: Data)
    requires forall p | p in packets :: IsPacket(p)
    ensures Decode(Flatten(packets) + more) == packets + Decode(more)
  {
    hide IsPacket, Decode;
    if packets == [] {
      assert Flatten(packets) + more == more;
    } else {
      var p, rest := packets[0], Flatten(packets[1..]) + more;
      assert Flatten(packets) + more == p + rest;
      DecodeStep(p, rest);
      DecodeFrom(packets[1..], more);
      assert packets == [p] + packets[1..];
    }
  }

  // Reading back a concatenation of packets yields exactly those packets.
  lemma {:induction false} DecodeFlatten(packets: seq<Data>)
    requires forall p | p in packets :: IsPacket(p)
    ensures Decode(Flatten(packets)) == packets
  {
    DecodeFrom(packets, []);
    assert Flatten(packets) + [] == Flatten(packets);
  }

  lemma {:induction false} UniquelyDecodable(ps: seq<Data>, qs: seq<Data>)
    requires forall p | p in ps :: IsPacket(p)
    requires forall q | q in qs :: IsPacket(q)
    requires Flatten(ps) == Flatten(qs)
    ensures ps == qs
  {
    DecodeFlatten(ps);
    DecodeFlatten(qs);
  }

  // Packets read one after the other from a stream that starts with the packets sent are the
  // packets sent, and what is left of the stream starts with the next one.
  lemma {:induction false} StreamRoundTrip(read: seq<Data>, left: Data, sent: seq<Data>, more: Data)
    requires forall p | p in read :: IsPacket(p)
    requires forall p | p in sent :: IsPacket(p)
    requires |read| <= |sent|
    requires Flatten(read) + left == Flatten(sent) + more
    ensures read == sent[..|read|]
    ensures left == Flatten(sent[|read|..]) + more
  {
    if read == [] {
      assert sent[0..] == sent && Flatten([]) + left == left;
    } else {
      var p, q := read[0], sent[0];
      assert IsPacket(p) && IsPacket(q);
      assert Flatten(read) + left == p + (Flatten(read[1..]) + left);
      assert Flatten(sent) + more == q + (Flatten(sent[1..]) + more);
      assert p + (Flatten(read[1..]) + left) == q + (Flatten(sent[1..]) + more);
      PacketPrefix(p, Flatten(read[1..]) + left, q, Flatten(sent[1..]) + more);
      StreamRoundTrip(read[1..], left, sent[1..], more);
      assert sent[1..][..|read| - 1] == sent[..|read|][1..];
      assert sent[1..][|read| - 1..] == sent[|read|..];
    }
  }

  lemma {:induction false} FlattenAppend(packets: seq<Data>, p: Data)
    ensures Flatten(packets + [p]) == Flatten(packets) + p
  {
    if packets == [] {
      assert packets + [p] == [p];
      assert Flatten([p]) == p + Flatten([]);
    } else {
      assert (packets + [p])[1..] == packets[1..] + [p];
      FlattenAppend(packets[1..], p);
    }
  }

  // Successful reads are packets of some type exactly when the header makes sense.
  lemma ReadIsSaneIff(p: Data)
    requires IsPacket(p)
    ensures (exists t :: Sane(p, t)) <==> HEADER <= GetSize(p[0], p[1]) && p[2] <= 5
  {
    if HEADER <= GetSize(p[0], p[1]) && p[2] <= 5 {
      var t := match p[2]
        case 0 => AuthRequest
        case 1 => AuthReply
        case 2 => ResetRequest
        case 3 => ResetReply
        case 4 => CmdRequest
        case _ => CmdReply;
      assert Sane(p, t);
    }
  }

  // Nothing a failed read leaves behind passes for a packet of the awaited type, whether the
  // packet object was empty before or still held the request just sent.
  lemma FailedReadIsNoPacket(r: ReadResult, before: Data, t: PacketType)
    requires r.Valid() && !r.Got?
    requires before == [] || exists u :: u != t && Sane(before, u)
    ensures !Sane(r.Left(before), t)
  {
    if r.NoHeader? && before != [] {
      var u :| u != t && Sane(before, u);
      if Sane(before, t) {
        OneTypeOnly(before, t, u);
      }
    }
  }
}
