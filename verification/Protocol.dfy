// The packet language of PSCProxyProtocol: what each prepare function builds, what each parse
// function accepts, and how a stream of packets is cut into packets again.
module Protocol {
  import opened Bytes
  import Bits

  datatype PacketType = AuthRequest | AuthReply | ResetRequest | ResetReply | CmdRequest | CmdReply {
    function Code(): byte {
      match this
      case AuthRequest => 0
      case AuthReply => 1
      case ResetRequest => 2
      case ResetReply => 3
      case CmdRequest => 4
      case CmdReply => 5
    }
  }

  const HEADER: nat := 3
  const MAX_PAYLOAD: nat := 0xFFFF - HEADER
  const PROTO_VERSION: byte := 0
  const AUTHORIZED: byte := 0
  const UNAUTHORIZED: byte := 1

  // ---------- The size field ----------

  // setSize: the two chars written for a 16-bit size.
  function SizeBytes(size: uint16): Data {
    [AsChar(size / 0x100), AsChar(size % 0x100)]
  }

  // getSize in arithmetic: both chars are signed, the first is shifted and cut to sixteen bits, the
  // second is cut to eight.
  function GetSize(b0: byte, b1: byte): uint16 {
    AsUInt16(AsUInt16(SignedChar(b0) * 0x100) + SignedChar(b1) % 0x100)
  }

  lemma GetSizeIsBigEndian(b0: byte, b1: byte)
    ensures GetSize(b0, b1) == 0x100 * b0 + b1
  {
    assert SignedChar(b0) * 0x100 == (if b0 < 0x80 then 0x100 * b0 else 0x100 * b0 - 0x1_0000);
    assert AsUInt16(SignedChar(b0) * 0x100) == 0x100 * b0;
    assert SignedChar(b1) % 0x100 == b1;
  }

  // Shifting, masking and or-ing signed chars gives the size that the arithmetic gives ...
  lemma GetSizeOnBits(b0: bv8, b1: bv8)
    ensures Bits.GetSize(b0, b1) as int == GetSize(b0 as int, b1 as int)
  {
    hide GetSize, Bits.GetSize;
    Bits.SumOfInts(b0, b1);
    GetSizeIsBigEndian(b0 as int, b1 as int);
  }

  // ... and the two chars written are the ones that shifting and masking give.
  lemma SetSizeOnBits(size: bv16)
    ensures var b := Bits.SetSize(size); [b.0 as int, b.1 as int] == SizeBytes(size as int)
  {
    hide SizeBytes, Bits.SetSize;
    Bits.SetSizeSplit(size);
    SizeBytesOfSum(Bits.SetSize(size).0 as int, Bits.SetSize(size).1 as int);
  }

  lemma SizeBytesOfSum(high: byte, low: byte)
    ensures SizeBytes(0x100 * high + low) == [high, low]
  {
  }

  // Every 16-bit size survives the trip through two signed chars.
  lemma SizeRoundTrip(size: uint16)
    ensures var b := SizeBytes(size); GetSize(b[0], b[1]) == size
  {
    hide GetSize;
    var b := SizeBytes(size);
    assert b[0] == size / 0x100 && b[1] == size % 0x100;
    GetSizeIsBigEndian(b[0], b[1]);
  }

  // The size a prepare function declares for a payload is the real size up to MAX_PAYLOAD and
  // wraps beyond it.
  lemma DeclaredSizeFits(payload: nat)
    ensures AsUInt16(HEADER + payload) == HEADER + payload <==> payload <= MAX_PAYLOAD
    ensures AsUInt16(HEADER + MAX_PAYLOAD + 1) == 0
  {
  }

  // ---------- Building packets ----------

  function Frame(t: PacketType, payload: Data): (p: Data) {
    SizeBytes(AsUInt16(HEADER + |payload|)) + [t.Code()] + payload
  }

  function Credentials(user: Data, pass: Data): Data {
    [PROTO_VERSION] + (user + [0] + (pass + [0]))
  }

  function PrepareAuth(user: Data, pass: Data): Data {
    Frame(AuthRequest, Credentials(user, pass))
  }

  function PrepareAuthReply(authorized: bool): Data {
    Frame(AuthReply, [if authorized then AUTHORIZED else UNAUTHORIZED])
  }

  function PrepareResetRequest(): Data {
    Frame(ResetRequest, [])
  }

  function PrepareResetReply(atr: Data): Data {
    Frame(ResetReply, atr)
  }

  function PrepareCmdRequest(cmd: Data): Data {
    Frame(CmdRequest, cmd)
  }

  function PrepareCmdReply(reply: Data): Data {
    Frame(CmdReply, reply)
  }

  // ---------- Taking packets apart ----------

  // checkPacketSanity. Looking at a byte that is not in the buffer counts as a mismatch.
  predicate Sane(p: Data, t: PacketType) {
    HEADER <= |p| == GetSize(p[0], p[1]) && p[2] == t.Code()
  }

  function Payload(p: Data, t: PacketType): Option<Data> {
    if Sane(p, t) then Some(p[HEADER..]) else None
  }

  // parseAuth: the payload starts with the version byte and the two NUL-terminated credentials.
  predicate ParseAuth(p: Data, user: Data, pass: Data) {
    Sane(p, AuthRequest) && Credentials(CStr(user), CStr(pass)) <= p[HEADER..]
  }

  predicate ParseAuthReply(p: Data) {
    Sane(p, AuthReply) && HEADER < |p| && p[HEADER] == AUTHORIZED
  }

  predicate ParseResetRequest(p: Data) {
    Sane(p, ResetRequest)
  }

  function ParseResetReply(p: Data): Option<Data> {
    Payload(p, ResetReply)
  }

  function ParseCmdRequest(p: Data): Option<Data> {
    Payload(p, CmdRequest)
  }

  // parseCmdReply appends to what the caller's buffer already holds; it does not clear it first,
  // unlike the other two payload parsers.
  function ParseCmdReply(p: Data, before: Data): Option<Data> {
    match Payload(p, CmdReply)
    case Some(reply) => Some(before + reply)
    case None => None
  }

  // ---------- Round trips ----------

  lemma FrameHeader(t: PacketType, payload: Data)
    ensures var p := Frame(t, payload);
            && |p| == HEADER + |payload| && p[HEADER..] == payload && p[2] == t.Code()
            && GetSize(p[0], p[1]) == AsUInt16(|p|)
  {
    var size := AsUInt16(HEADER + |payload|);
    var p := Frame(t, payload);
    assert p[0] == SizeBytes(size)[0] && p[1] == SizeBytes(size)[1];
    SizeRoundTrip(size);
  }

  // A built packet is sane for its own type and for no other, and its payload is the one put in.
  lemma FrameRoundTrip(t: PacketType, payload: Data)
    requires |payload| <= MAX_PAYLOAD
    ensures |Frame(t, payload)| == HEADER + |payload|
    ensures forall u :: Payload(Frame(t, payload), u) == if u == t then Some(payload) else None
  {
    hide Frame, GetSize;
    FrameHeader(t, payload);
  }

  // A packet passes the sanity check for at most one type, so the order in which the server tries
  // the parsers cannot matter.
  lemma OneTypeOnly(p: Data, t: PacketType, u: PacketType)
    requires Sane(p, t) && Sane(p, u)
    ensures t == u
  {
    assert t.Code() == u.Code();
  }

  // The longest payload that survives is exactly MAX_PAYLOAD bytes long.
  lemma FrameSaneIff(t: PacketType, payload: Data)
    ensures Sane(Frame(t, payload), t) <==> |payload| <= MAX_PAYLOAD
  {
    hide Frame, GetSize;
    FrameHeader(t, payload);
  }

  // What parseCmdReply hands back is exactly the reply only when the caller's buffer was empty.
  lemma CmdReplyAloneIff(reply: Data, before: Data)
    requires |reply| <= MAX_PAYLOAD
    ensures ParseCmdReply(PrepareCmdReply(reply), before) == Some(before + reply)
    ensures ParseCmdReply(PrepareCmdReply(reply), before) == Some(reply) <==> before == []
  {
    FrameRoundTrip(CmdReply, reply);
    if before + reply == reply {
      assert |before| == 0;
    }
    assert [] + reply == reply;
  }

  lemma AuthReplyRoundTrip(authorized: bool)
    ensures ParseAuthReply(PrepareAuthReply(authorized)) == authorized
  {
    var payload := [if authorized then AUTHORIZED else UNAUTHORIZED];
    FrameRoundTrip(AuthReply, payload);
    var p := PrepareAuthReply(authorized);
    assert p[HEADER] == p[HEADER..][0];
  }

  lemma TerminatedPrefix(x: Data, a: Data, y: Data, b: Data)
    requires NulFree(x) && NulFree(y)
    ensures x + [0] + a <= y + [0] + b <==> x == y && a <= b
  {
    var p, q := x + [0] + a, y + [0] + b;
    assert p[|x|] == 0 && q[|y|] == 0;
    assert |x| < |y| ==> q[|x|] == y[|x|];
    assert |y| < |x| ==> p[|y|] == x[|y|];
    if p <= q {
      assert forall i | 0 <= i < |p| :: p[i] == q[i];
      assert x == p[..|x|] == q[..|x|] == y;
      assert a == p[|x| + 1..] && b == q[|x| + 1..];
    }
    if x == y && a <= b {
      assert b == a + b[|a|..];
      assert q == p + b[|a|..];
    }
  }

  lemma ConsPrefix(b: byte, x: Data, y: Data)
    ensures [b] + x <= [b] + y <==> x <= y
  {
    var p, q := [b] + x, [b] + y;
    assert p[1..] == x && q[1..] == y;
    if p <= q {
      assert p == q[..|p|];
      assert x == y[..|x|];
    }
    if x <= y {
      assert x == y[..|x|];
      assert p == q[..|p|];
    }
  }

  lemma CredentialsPrefix(user: Data, pass: Data, u: Data, w: Data)
    requires NulFree(user) && NulFree(pass) && NulFree(u) && NulFree(w)
    ensures Credentials(u, w) <= Credentials(user, pass) <==> u == user && w == pass
  {
    ConsPrefix(PROTO_VERSION, u + [0] + (w + [0]), user + [0] + (pass + [0]));
    TerminatedPrefix(u, w + [0], user, pass + [0]);
    assert w + [0] + [] == w + [0] && pass + [0] + [] == pass + [0];
    TerminatedPrefix(w, [], pass, []);
  }

  // A prepared request is accepted exactly by a server configured with the same name and
  // password; a shared prefix is not enough.
  lemma {:induction false} AuthRoundTrip(user: Data, pass: Data, wantUser: Data, wantPass: Data)
    requires NulFree(user) && NulFree(pass)
    requires |user| + |pass| + 6 <= 0xFFFF
    ensures ParseAuth(PrepareAuth(user, pass), wantUser, wantPass) <==>
            user == CStr(wantUser) && pass == CStr(wantPass)
  {
    FrameRoundTrip(AuthRequest, Credentials(user, pass));
    assert Payload(PrepareAuth(user, pass), AuthRequest) == Some(Credentials(user, pass));
    CredentialsPrefix(user, pass, CStr(wantUser), CStr(wantPass));
  }

  // The credentials start at a given place exactly when the version byte, the name and the password
  // follow one another there.
  lemma CredentialsAt(p: Data, at: nat, user: Data, pass: Data)
    requires at <= |p|
    ensures Credentials(user, pass) <= p[at..] <==>
            && at < |p| && p[at] == PROTO_VERSION
            && user + [0] <= p[at + 1..]
            && pass + [0] <= p[at + 1 + |user| + 1..]
  {
    var rest := p[at..];
    assert Credentials(user, pass)[0] == PROTO_VERSION && (rest != [] ==> rest[0] == p[at]);
    if at < |p| && p[at] == PROTO_VERSION {
      assert rest == [PROTO_VERSION] + p[at + 1..];
      ConsPrefix(PROTO_VERSION, user + [0] + (pass + [0]), p[at + 1..]);
      SplitPrefix(user + [0], pass + [0], p[at + 1..]);
      if user + [0] <= p[at + 1..] {
        assert p[at + 1..][|user| + 1..] == p[at + 1 + |user| + 1..];
      }
    }
  }

  lemma SplitPrefix(a: Data, b: Data, s: Data)
    ensures a + b <= s <==> a <= s && b <= s[|a|..]
  {
    if a + b <= s {
      assert a + b == s[..|a| + |b|];
      assert a == (a + b)[..|a|] == s[..|a|];
      assert b == (a + b)[|a|..] == s[|a|..][..|b|];
    }
    if a <= s && b <= s[|a|..] {
      assert s[..|a| + |b|] == s[..|a|] + s[|a|..][..|b|] == a + b;
    }
  }

  // parseAuth walks the buffer without looking at its length. This is its answer when the bytes
  // that follow the buffer in memory are `beyond`.
  predicate ParseAuthInMemory(p: Data, beyond: Data, user: Data, pass: Data) {
    Sane(p, AuthRequest) && Credentials(CStr(user), CStr(pass)) <= (p + beyond)[HEADER..]
  }

  lemma PrefixOfConcat(want: Data, have: Data, beyond: Data)
    ensures want <= have + beyond <==>
            if |want| <= |have| then want <= have else have <= want && want[|have|..] <= beyond
  {
    var all := have + beyond;
    if |want| <= |have| {
      assert all[..|want|] == have[..|want|];
    } else {
      var n := |have|;
      if want <= all {
        assert want == all[..|want|];
        assert want[..n] == have && want[n..] == beyond[..|want| - n];
      }
      if have <= want && want[n..] <= beyond {
        assert want == want[..n] + want[n..];
        assert want[..n] == have && want[n..] == beyond[..|want| - n];
        assert want == all[..|want|];
      }
    }
  }

  // parseAuthReply looks at the byte behind the header whether or not there is one.
  predicate ParseAuthReplyInMemory(p: Data, beyond: Data) {
    Sane(p, AuthReply) && HEADER < |p + beyond| && (p + beyond)[HEADER] == AUTHORIZED
  }

  // Its answer depends on memory outside the packet exactly when the packet is a bare header.
  lemma ReplyOverreadMatters(p: Data)
    requires Sane(p, AuthReply)
    ensures (forall beyond :: ParseAuthReplyInMemory(p, beyond) == ParseAuthReply(p)) <==> |p| != HEADER
  {
    if |p| == HEADER {
      assert (p + [AUTHORIZED])[HEADER] == AUTHORIZED;
      assert ParseAuthReplyInMemory(p, [AUTHORIZED]) && !ParseAuthReply(p);
    } else {
      forall beyond
        ensures ParseAuthReplyInMemory(p, beyond) == ParseAuthReply(p)
      {
        assert (p + beyond)[HEADER] == p[HEADER];
      }
    }
  }

  // The header alone is such a packet.
  lemma ReplyOverreadHappens()
    ensures Frame(AuthReply, []) == [0, 3, 1] && Sane(Frame(AuthReply, []), AuthReply)
    ensures ParseAuthReplyInMemory(Frame(AuthReply, []), [AUTHORIZED]) && !ParseAuthReply(Frame(AuthReply, []))
  {
    hide GetSize, Sane;
    FrameSaneIff(AuthReply, []);
    assert Frame(AuthReply, []) == [0, 3, 1];
    assert ([0, 3, 1] + [AUTHORIZED])[HEADER] == AUTHORIZED;
  }

  // The answer depends on memory outside the packet exactly when the payload is cut short inside
  // the very credentials that are expected.
  lemma {:induction false} OverreadMatters(p: Data, user: Data, pass: Data)
    requires Sane(p, AuthRequest)
    ensures (forall beyond :: ParseAuthInMemory(p, beyond, user, pass) == ParseAuth(p, user, pass)) <==>
            !(p[HEADER..] < Credentials(CStr(user), CStr(pass)))
  {
    var want, have := Credentials(CStr(user), CStr(pass)), p[HEADER..];
    forall beyond
      ensures ParseAuthInMemory(p, beyond, user, pass) == (want <= have + beyond)
    {
      assert (p + beyond)[HEADER..] == have + beyond;
    }
    if have < want {
      var beyond := want[|have|..];
      assert have + beyond == want;
      assert ParseAuthInMemory(p, beyond, user, pass) != ParseAuth(p, user, pass);
    } else {
      forall beyond
        ensures ParseAuthInMemory(p, beyond, user, pass) == ParseAuth(p, user, pass)
      {
        PrefixOfConcat(want, have, beyond);
      }
    }
  }

  // Such a packet can be received: three header bytes and the version, and nothing of the
  // credentials. Whatever they are, the answer then depends on memory.
  lemma OverreadHappens(user: Data, pass: Data)
    ensures var p := Frame(AuthRequest, [PROTO_VERSION]);
            && Sane(p, AuthRequest) && !ParseAuth(p, user, pass)
            && exists beyond :: ParseAuthInMemory(p, beyond, user, pass)
  {
    hide GetSize, Frame;
    var p := Frame(AuthRequest, [PROTO_VERSION]);
    var want := Credentials(CStr(user), CStr(pass));
    FrameHeader(AuthRequest, [PROTO_VERSION]);
    assert |p[HEADER..]| < |want|;
    assert want == [PROTO_VERSION] + want[1..];
    assert (p + want[1..])[HEADER..] == p[HEADER..] + want[1..] == want;
    assert ParseAuthInMemory(p, want[1..], user, pass);
  }

  // ---------- In numerals ----------

  // The six packets, byte by byte.
  lemma PacketsInNumerals(user: Data, pass: Data, data: Data)
    requires |user| + |pass| + 6 <= 65535 && |data| <= 65532
    ensures var n := |user| + |pass| + 6;
            PrepareAuth(user, pass) == [n / 256, n % 256, 0, 0] + user + [0] + pass + [0]
    ensures PrepareAuthReply(true) == [0, 4, 1, 0] && PrepareAuthReply(false) == [0, 4, 1, 1]
    ensures PrepareResetRequest() == [0, 3, 2]
    ensures var n := |data| + 3;
            && PrepareResetReply(data) == [n / 256, n % 256, 3] + data
            && PrepareCmdRequest(data) == [n / 256, n % 256, 4] + data
            && PrepareCmdReply(data) == [n / 256, n % 256, 5] + data
  {
    hide AsUInt16, AsChar;
    SmallSize(|data| + 3);
    SmallSize(|user| + |pass| + 6);
    SmallSize(3);
    SmallSize(4);
    assert |Credentials(user, pass)| == |user| + |pass| + 3;
    var n := |user| + |pass| + 6;
    assert [n / 256, n % 256] + [0] + ([0] + (user + [0] + (pass + [0]))) ==
           [n / 256, n % 256, 0, 0] + user + [0] + pass + [0];
  }

  lemma SmallSize(n: nat)
    requires n <= 65535
    ensures AsUInt16(n) == n && SizeBytes(n) == [n / 256, n % 256]
  {
  }

  // What is looked for in a packet, byte by byte.
  lemma SaneInNumerals(p: Data, t: PacketType)
    ensures Sane(p, t) <==>
            |p| >= 3 && |p| == 256 * (p[0] as int) + p[1] as int &&
            match t
            case AuthRequest => p[2] == 0
            case AuthReply => p[2] == 1
            case ResetRequest => p[2] == 2
            case ResetReply => p[2] == 3
            case CmdRequest => p[2] == 4
            case CmdReply => p[2] == 5
  {
    hide GetSize;
    if |p| >= 3 {
      GetSizeIsBigEndian(p[0], p[1]);
    }
  }

  // What the parsers make of it.
  lemma ParsersInNumerals(p: Data, user: Data, pass: Data, before: Data)
    requires NulFree(user) && NulFree(pass)
    ensures ParseAuth(p, user, pass) <==> Sane(p, AuthRequest) && [0] + user + [0] + pass + [0] <= p[3..]
    ensures ParseAuthReply(p) <==> Sane(p, AuthReply) && |p| > 3 && p[3] == 0
    ensures ParseResetRequest(p) <==> Sane(p, ResetRequest)
    ensures ParseResetReply(p) == if Sane(p, ResetReply) then Some(p[3..]) else None
    ensures ParseCmdRequest(p) == if Sane(p, CmdRequest) then Some(p[3..]) else None
    ensures ParseCmdReply(p, before) == if Sane(p, CmdReply) then Some(before + p[3..]) else None
  {
    hide Sane;
    CStrOfNulFree(user);
    CStrOfNulFree(pass);
    assert Credentials(user, pass) == [0] + user + [0] + pass + [0];
    assert HEADER == 3 && MAX_PAYLOAD == 65532;
  }
}
