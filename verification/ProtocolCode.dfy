// PSCProxyProtocol as it is written, over buffers, proved against the packet language.
module ProtocolCode {
  import opened Bytes
  import opened Packets
  import P = Protocol

  method SetSize(buf: array<byte>, size: uint16)
    requires 2 <= buf.Length
    modifies buf
    ensures buf[..2] == P.SizeBytes(size)
  {
    buf[0] := AsChar(size / 0x100);
    buf[1] := AsChar(size % 0x100);
  }

  // Walks a pointer into the buffer, as all the prepare functions do. The buffer has the size that
  // is declared, cut to sixteen bits, and the code does not look for its end: where the pointer
  // would leave it, what happens is undefined, and the result says so.
  method Append(buf: array<byte>, at: nat, s: Data) returns (inside: bool, next: nat)
    requires at <= buf.Length
    modifies buf
    ensures inside <==> at + |s| <= buf.Length
    ensures inside ==> next == at + |s| && buf[..next] == old(buf[..at]) + s
  {
    var i := 0;
    next := at;
    while i < |s|
      invariant 0 <= i <= |s| && at + i <= buf.Length
      invariant buf[..at + i] == old(buf[..at]) + s[..i]
    {
      if at + i == buf.Length {
        return false, next;
      }
      ghost var before := buf[..at + i];
      buf[at + i] := s[i];
      assert buf[..at + i + 1] == before + [s[i]];
      assert s[..i + 1] == s[..i] + [s[i]];
      i := i + 1;
    }
    return true, at + |s|;
  }

  // The prepare functions share their shape: the size, the type, the payload. They stay inside
  // their buffer, and build the packet, exactly when the payload fits the sixteen bits of the size.
  method PrepareFrame(data: PacketData, t: P.PacketType, payload: Data) returns (defined: bool)
    requires data.Valid()
    modifies data
    ensures defined <==> |payload| <= P.MAX_PAYLOAD
    ensures if defined then data.Valid() && data.Bytes() == P.Frame(t, payload) && fresh(data.data)
            else unchanged(data)
  {
    hide P.SizeBytes, P.PacketType.Code;
    var size := AsUInt16(P.HEADER + |payload|);
    var buf := new byte[size];
    if size < P.HEADER {
      return false;
    }
    SetSize(buf, size);
    assert buf[..2] == P.SizeBytes(size);
    var c;
    defined, c := Append(buf, 2, [t.Code()]);
    defined, c := Append(buf, c, payload);
    if defined {
      data.SetData(buf, size);
    }
  }

  // The name, the password and six more bytes must fit the sixteen bits of the size.
  method PrepareAuth(data: PacketData, user: Data, pass: Data) returns (defined: bool)
    requires data.Valid()
    modifies data
    ensures defined <==> |user| + |pass| + 6 <= 0xFFFF
    ensures if defined then data.Valid() && data.Bytes() == P.PrepareAuth(user, pass) && fresh(data.data)
            else unchanged(data)
  {
    hide P.SizeBytes;
    var t := P.PacketType.AuthRequest;
    var size := AsUInt16(P.HEADER + 1 + (|user| + 1) + (|pass| + 1));
    var buf := new byte[size];
    if size < P.HEADER + 1 {
      return false;
    }
    SetSize(buf, size);
    ghost var head := P.SizeBytes(size);
    assert buf[..2] == head;
    var c;
    defined, c := Append(buf, 2, [t.Code(), P.PROTO_VERSION]);
    defined, c := Append(buf, c, user + [0]);
    if !defined {
      return;
    }
    defined, c := Append(buf, c, pass + [0]);
    if !defined {
      return;
    }
    AuthLayout(head, t.Code(), P.PROTO_VERSION, user + [0], pass + [0]);
    data.SetData(buf, size);
  }

  lemma AuthLayout(head: Data, t: byte, version: byte, user: Data, pass: Data)
    ensures head + [t, version] + user + pass == head + [t] + ([version] + (user + pass))
  {
  }

  method PrepareAuthReply(data: PacketData, authorized: bool)
    requires data.Valid()
    modifies data
    ensures data.Valid() && data.Bytes() == P.PrepareAuthReply(authorized) && fresh(data.data)
  {
    var defined := PrepareFrame(data, P.AuthReply, [if authorized then P.AUTHORIZED else P.UNAUTHORIZED]);
  }

  method PrepareResetRequest(data: PacketData)
    requires data.Valid()
    modifies data
    ensures data.Valid() && data.Bytes() == P.PrepareResetRequest() && fresh(data.data)
  {
    var defined := PrepareFrame(data, P.ResetRequest, []);
  }

  // The length of the ATR is itself cut to sixteen bits, so a longer ATR is shortened silently, and
  // a length that just fits these bits leaves no room for the header.
  method PrepareResetReply(data: PacketData, atr: Data) returns (defined: bool)
    requires data.Valid()
    modifies data
    ensures defined <==> AsUInt16(|atr|) <= P.MAX_PAYLOAD
    ensures if defined then
              data.Valid() && data.Bytes() == P.PrepareResetReply(atr[..AsUInt16(|atr|)]) && fresh(data.data)
            else unchanged(data)
    ensures |atr| <= P.MAX_PAYLOAD ==> data.Valid() && data.Bytes() == P.PrepareResetReply(atr)
  {
    var atrSize := AsUInt16(|atr|);
    defined := PrepareFrame(data, P.ResetReply, atr[..atrSize]);
    assert |atr| <= P.MAX_PAYLOAD ==> atr[..atrSize] == atr;
  }

  method PrepareCmdRequest(data: PacketData, cmd: Data) returns (defined: bool)
    requires data.Valid()
    modifies data
    ensures defined <==> |cmd| <= P.MAX_PAYLOAD
    ensures if defined then data.Valid() && data.Bytes() == P.PrepareCmdRequest(cmd) && fresh(data.data)
            else unchanged(data)
  {
    defined := PrepareFrame(data, P.CmdRequest, cmd);
  }

  method PrepareCmdReply(data: PacketData, reply: Data) returns (defined: bool)
    requires data.Valid()
    modifies data
    ensures defined <==> |reply| <= P.MAX_PAYLOAD
    ensures if defined then data.Valid() && data.Bytes() == P.PrepareCmdReply(reply) && fresh(data.data)
            else unchanged(data)
  {
    defined := PrepareFrame(data, P.CmdReply, reply);
  }

  // A packet of one or two bytes would make the code look past its end; that counts as a mismatch.
  method CheckPacketSanity(data: PacketData, t: P.PacketType) returns (sane: bool)
    requires data.Valid()
    ensures sane == P.Sane(data.Bytes(), t)
  {
    if data.size < P.HEADER {
      return false;
    }
    var size := P.GetSize(data.data[0], data.data[1]);
    if size != data.size {
      return false;
    }
    return t.Code() == data.data[2];
  }

  // The loop that copies everything behind the header to the end of a vector.
  method PushPayload(data: PacketData, before: Data) returns (out: Data)
    requires data.Valid() && P.HEADER <= data.size
    ensures out == before + data.Bytes()[P.HEADER..]
  {
    out := before;
    var n := data.size - P.HEADER;
    ghost var payload := data.Bytes()[P.HEADER..];
    var i := 0;
    while i < n
      invariant 0 <= i <= n
      invariant out == before + payload[..i]
    {
      out := out + [data.data[P.HEADER + i]];
      assert payload[..i + 1] == payload[..i] + [payload[i]];
      i := i + 1;
    }
    assert payload[..n] == payload;
  }

  method ParseAuth(data: PacketData, user: Data, pass: Data) returns (ok: bool)
    requires data.Valid()
    ensures ok == P.ParseAuth(data.Bytes(), user, pass)
  {
    var sane := CheckPacketSanity(data, P.AuthRequest);
    if !sane {
      return false;
    }
    ghost var p := data.Bytes();
    ghost var u, w := CStr(user), CStr(pass);
    P.CredentialsAt(p, P.HEADER, u, w);
    var c := P.HEADER;
    if c == data.size || data.data[c] != P.PROTO_VERSION {
      return false;
    }
    c := c + 1;
    ok, c := MatchString(data, c, user);
    if !ok {
      return false;
    }
    ok, c := MatchString(data, c, pass);
  }

  // One of the two comparison loops: stops where the packet and the string both hold a NUL.
  method MatchString(data: PacketData, start: nat, s: Data) returns (ok: bool, next: nat)
    requires data.Valid() && start <= data.size
    ensures ok == (CStr(s) + [0] <= data.Bytes()[start..])
    ensures ok ==> next == start + |CStr(s)| + 1
  {
    hide CStr;
    ghost var z := CStr(s);
    ghost var rest := data.Bytes()[start..];
    var i := 0;
    var c := start;
    next := start;
    while c < data.size && (data.data[c] != 0 || (i < |s| && s[i] != 0))
      invariant 0 <= i <= |z| && c == start + i <= data.size
      invariant z[..i] == rest[..i]
      decreases data.size - c
    {
      assert data.data[c] == rest[i];
      if i == |s| || data.data[c] != s[i] {
        Differs(z, rest, i);
        return false, next;
      }
      assert z[..i + 1] == z[..i] + [z[i]] && rest[..i + 1] == rest[..i] + [rest[i]];
      c, i := c + 1, i + 1;
    }
    if c == data.size {
      Runs(z, rest, i);
      return false, next;
    }
    assert data.data[c] == rest[i];
    assert i == |z| && rest[..i + 1] == z + [0];
    return true, c + 1;
  }

  // A mismatch before the terminator, or at it.
  lemma Differs(z: Data, rest: Data, i: nat)
    requires i <= |z| && i < |rest| && (if i == |z| then rest[i] != 0 else rest[i] != z[i])
    ensures !(z + [0] <= rest)
  {
    assert (z + [0])[i] == if i == |z| then 0 else z[i];
  }

  // The packet runs out before the terminator.
  lemma Runs(z: Data, rest: Data, i: nat)
    requires |rest| == i <= |z|
    ensures !(z + [0] <= rest)
  {
  }

  // For a bare header the code looks at the byte behind the packet; that counts as a mismatch.
  method ParseAuthReply(data: PacketData) returns (ok: bool)
    requires data.Valid()
    ensures ok == P.ParseAuthReply(data.Bytes())
  {
    var sane := CheckPacketSanity(data, P.AuthReply);
    if !sane || data.size == P.HEADER {
      return false;
    }
    return data.data[P.HEADER] == P.AUTHORIZED;
  }

  method ParseResetRequest(data: PacketData) returns (ok: bool)
    requires data.Valid()
    ensures ok == P.ParseResetRequest(data.Bytes())
  {
    ok := CheckPacketSanity(data, P.ResetRequest);
  }

  method ParseResetReply(data: PacketData, before: Data) returns (ok: bool, atr: Data)
    requires data.Valid()
    ensures P.ParseResetReply(data.Bytes()) == if ok then Some(atr) else None
    ensures !ok ==> atr == before
  {
    ok := CheckPacketSanity(data, P.ResetReply);
    atr := before;
    if ok {
      atr := PushPayload(data, []);
      assert [] + data.Bytes()[P.HEADER..] == data.Bytes()[P.HEADER..];
    }
  }

  method ParseCmdRequest(data: PacketData, before: Data) returns (ok: bool, cmd: Data)
    requires data.Valid()
    ensures P.ParseCmdRequest(data.Bytes()) == if ok then Some(cmd) else None
    ensures !ok ==> cmd == before
  {
    ok := CheckPacketSanity(data, P.CmdRequest);
    cmd := before;
    if ok {
      cmd := PushPayload(data, []);
      assert [] + data.Bytes()[P.HEADER..] == data.Bytes()[P.HEADER..];
    }
  }

  // The vector is not cleared first.
  method ParseCmdReply(data: PacketData, before: Data) returns (ok: bool, reply: Data)
    requires data.Valid()
    ensures P.ParseCmdReply(data.Bytes(), before) == if ok then Some(reply) else None
    ensures !ok ==> reply == before
  {
    ok := CheckPacketSanity(data, P.CmdReply);
    reply := before;
    if ok {
      reply := PushPayload(data, before);
    }
  }
}
