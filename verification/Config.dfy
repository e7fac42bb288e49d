// The emulator's configuration file: CardEmulatorConfig.
module ConfigModel {
  import opened Bytes

  datatype Kind = Dummy | SeasonKind

  datatype Settings = Settings(devName: string, resetDelay: uint32, dataTXDelay: uint32, kind: Kind)

  const DEFAULTS := Settings("/dev/ttyS0", 10000, 200, Dummy)
  const PREFIX: string := "card_emulator."

  // ---------- One line ----------

  predicate EndsLine(c: char) {
    c == '#' || c == '\t' || c == ' '
  }

  // The part of a line before the first comment sign, tab or space.
  function Clean(line: string): (r: string)
    ensures r <= line && (forall k | 0 <= k < |r| :: !EndsLine(r[k]))
    ensures |r| < |line| ==> EndsLine(line[|r|])
  {
    if line == [] || EndsLine(line[0]) then [] else [line[0]] + Clean(line[1..])
  }

  // The part of a text before the first equals sign.
  function Key(text: string): (r: string)
    ensures r <= text && '=' !in r
    ensures |r| < |text| ==> text[|r|] == '='
  {
    if text == [] || text[0] == '=' then [] else [text[0]] + Key(text[1..])
  }

  // A line is empty, malformed, or a setting.
  datatype Line = Blank | Malformed | Setting(key: string, value: string)

  function Read(line: string): Line {
    var text := Clean(line);
    var key := Key(text);
    if text == "" then Blank
    else if |key| == |text| then Malformed
    else Setting(key, text[|key| + 1..])
  }

  predicate IsDigit(c: char) {
    '0' <= c <= '9'
  }

  // strToUInt: None stands for the exception. The arithmetic is that of a 32-bit unsigned int.
  function StrToUInt(s: string): Option<uint32> {
    if s == "" then Some(0)
    else
      match StrToUInt(s[..|s| - 1])
      case None => None
      case Some(n) =>
        var c := s[|s| - 1];
        if IsDigit(c) then Some(AsUInt32(n * 10 + (c as int - '0' as int))) else None
  }

  function KindOf(value: string): Option<Kind> {
    if value == "season" then Some(SeasonKind) else if value == "dummy" then Some(Dummy) else None
  }

  // handleKeyValue: None stands for an exception. setResetDelay assigns the field to itself, so a
  // reset delay is checked but never takes effect.
  function Apply(s: Settings, key: string, value: string): Option<Settings> {
    if !(PREFIX <= key) then Some(s)
    else
      var name := key[|PREFIX|..];
      if name == "type" then
        (match KindOf(value) case None => None case Some(kind) => Some(s.(kind := kind)))
      else if name == "dev_name" then Some(s.(devName := value))
      else if name == "data_tx_delay" then
        (match StrToUInt(value) case None => None case Some(n) => Some(s.(dataTXDelay := n)))
      else if name == "reset_delay" then
        (match StrToUInt(value) case None => None case Some(_) => Some(s))
      else Some(s)
  }

  function ApplyLine(s: Settings, line: string): Option<Settings> {
    match Read(line)
    case Blank => Some(s)
    case Malformed => None
    case Setting(key, value) => Apply(s, key, value)
  }

  function Load(lines: seq<string>): Option<Settings> {
    if lines == [] then Some(DEFAULTS)
    else
      match Load(lines[..|lines| - 1])
      case None => None
      case Some(s) => ApplyLine(s, lines[|lines| - 1])
  }

  // ---------- What loading means ----------

  // Whether a line gives the named emulator key, and the value the last such line gives.
  predicate Gives(line: string, name: string) {
    Read(line).Setting? && Read(line).key == PREFIX + name
  }

  function LastValue(lines: seq<string>, name: string): Option<string> {
    if lines == [] then None
    else if Gives(lines[|lines| - 1], name) then Some(Read(lines[|lines| - 1]).value)
    else LastValue(lines[..|lines| - 1], name)
  }

  // A line that loading accepts whatever came before it.
  predicate Valid(line: string) {
    match Read(line)
    case Blank => true
    case Malformed => false
    case Setting(key, value) =>
      && (key == PREFIX + "type" ==> KindOf(value).Some?)
      && (key == PREFIX + "data_tx_delay" || key == PREFIX + "reset_delay" ==> StrToUInt(value).Some?)
  }

  lemma PrefixedKey(key: string, name: string)
    ensures PREFIX <= key && key[|PREFIX|..] == name <==> key == PREFIX + name
  {
    if PREFIX <= key && key[|PREFIX|..] == name {
      assert key == key[..|PREFIX|] + key[|PREFIX|..];
    }
    if key == PREFIX + name {
      assert key[|PREFIX|..] == name;
    }
  }

  // What one accepted line does to each setting.
  lemma LineFacts(s: Settings, line: string)
    ensures ApplyLine(s, line).Some? <==> Valid(line)
    ensures Valid(line) ==>
              var t := ApplyLine(s, line).value;
              && t.resetDelay == s.resetDelay
              && t.devName == (if Gives(line, "dev_name") then Read(line).value else s.devName)
              && (if Gives(line, "data_tx_delay") then Some(t.dataTXDelay) == StrToUInt(Read(line).value)
                  else t.dataTXDelay == s.dataTXDelay)
              && (if Gives(line, "type") then Some(t.kind) == KindOf(Read(line).value) else t.kind == s.kind)
  {
    hide StrToUInt, KindOf, Read;
    if Read(line).Setting? {
      var key := Read(line).key;
      PrefixedKey(key, "type");
      PrefixedKey(key, "dev_name");
      PrefixedKey(key, "data_tx_delay");
      PrefixedKey(key, "reset_delay");
    }
  }

  // Loading succeeds exactly when every line is valid. Then each setting has the value its last
  // line gives or else its default, except the reset delay, which always keeps its default.
  lemma {:induction false} LastWins(lines: seq<string>)
    ensures Load(lines).Some? <==> forall k | 0 <= k < |lines| :: Valid(lines[k])
    ensures Load(lines).Some? ==>
              var s := Load(lines).value;
              && s.devName == (match LastValue(lines, "dev_name") case Some(v) => v case None => DEFAULTS.devName)
              && Some(s.dataTXDelay) == (match LastValue(lines, "data_tx_delay")
                                         case Some(v) => StrToUInt(v) case None => Some(DEFAULTS.dataTXDelay))
              && Some(s.kind) == (match LastValue(lines, "type")
                                  case Some(v) => KindOf(v) case None => Some(DEFAULTS.kind))
              && s.resetDelay == DEFAULTS.resetDelay
  {
    hide StrToUInt, KindOf, Read, Valid, Gives, ApplyLine;
    if lines != [] {
      var init, last := lines[..|lines| - 1], lines[|lines| - 1];
      LastWins(init);
      if Load(init).Some? {
        LineFacts(Load(init).value, last);
      }
    }
  }

  // So the last reset delay given takes effect exactly when it is the default.
  lemma {:induction false} ResetDelayWinsIff(lines: seq<string>, v: string)
    requires Load(lines).Some? && LastValue(lines, "reset_delay") == Some(v)
    ensures Some(Load(lines).value.resetDelay) == StrToUInt(v) <==> StrToUInt(v) == Some(10000)
  {
    LastWins(lines);
  }

  // What follows a comment sign, tab or space has no effect.
  lemma {:induction false} RestIgnored(text: string, c: char, rest: string)
    requires EndsLine(c)
    ensures Clean(text + [c] + rest) == Clean(text)
    ensures Read(text + [c] + rest) == Read(text)
  {
    var line := text + [c] + rest;
    if text == [] {
      assert line[0] == c;
    } else if !EndsLine(text[0]) {
      assert line[1..] == text[1..] + [c] + rest;
      RestIgnored(text[1..], c, rest);
    }
  }

  // A key without the prefix has no effect.
  lemma ForeignKeyIgnored(s: Settings, line: string)
    requires Read(line).Setting? && !(PREFIX <= Read(line).key)
    ensures ApplyLine(s, line) == Some(s)
  {
  }

  // A line of the form key=value is that setting, a line without an equals sign is malformed, and
  // only an empty one is skipped.
  lemma {:induction false} LineForms(key: string, value: string)
    requires forall k | 0 <= k < |key| :: key[k] !in "=# \t"
    requires forall k | 0 <= k < |value| :: value[k] !in "# \t"
    ensures Read(key + "=" + value) == Setting(key, value)
    ensures Read(key) == if key == "" then Blank else Malformed
    ensures Read("# " + key) == Blank && Read(" " + key) == Blank && Read("\t" + key) == Blank
  {
    var line := key + "=" + value;
    CleanOfClean(line);
    CleanOfClean(key);
    KeyOf(key, value);
    KeyOfKey(key);
    assert line[|key| + 1..] == value;
  }

  lemma {:induction false} CleanOfClean(line: string)
    requires forall k | 0 <= k < |line| :: line[k] !in "# \t"
    ensures Clean(line) == line
  {
    if line != [] {
      CleanOfClean(line[1..]);
    }
  }

  lemma {:induction false} KeyOf(key: string, value: string)
    requires '=' !in key
    ensures Key(key + "=" + value) == key
  {
    var text := key + "=" + value;
    if key != [] {
      assert text[1..] == key[1..] + "=" + value;
      KeyOf(key[1..], value);
    }
  }

  lemma {:induction false} KeyOfKey(key: string)
    requires '=' !in key
    ensures Key(key) == key
  {
    if key != [] {
      KeyOfKey(key[1..]);
    }
  }

  // The words the configuration knows, and what it starts from.
  lemma {:induction false} Words(s: Settings, value: string)
    ensures KindOf("season") == Some(SeasonKind) && KindOf("dummy") == Some(Dummy)
    ensures value != "season" && value != "dummy" ==> KindOf(value) == None
    ensures Apply(s, "card_emulator.dev_name", value) == Some(s.(devName := value))
    ensures Apply(s, "card_emulator.type", "season") == Some(s.(kind := SeasonKind))
    ensures Apply(s, "card_emulator.type", "dummy") == Some(s.(kind := Dummy))
    ensures StrToUInt(value).Some? ==>
              Apply(s, "card_emulator.data_tx_delay", value) == Some(s.(dataTXDelay := StrToUInt(value).value))
    ensures Load([]) == Some(Settings("/dev/ttyS0", 10000, 200, Dummy))
  {
    hide StrToUInt;
    PrefixedKey("card_emulator.dev_name", "dev_name");
    PrefixedKey("card_emulator.type", "type");
    PrefixedKey("card_emulator.data_tx_delay", "data_tx_delay");
  }

  // ---------- Numbers ----------

  // Exactly the texts made of digits are numbers.
  lemma {:induction false} NumberIff(s: string)
    ensures StrToUInt(s).Some? <==> forall k | 0 <= k < |s| :: s[k] in "0123456789"
  {
    if s != "" {
      var init := s[..|s| - 1];
      NumberIff(init);
      DigitIff(s[|s| - 1]);
      assert forall k | 0 <= k < |init| :: init[k] == s[k];
    }
  }

  lemma DigitIff(c: char)
    ensures IsDigit(c) <==> c in "0123456789"
  {
    if IsDigit(c) {
      var d := c as int - '0' as int;
      assert "0123456789"[d] == c;
    }
  }

  function Digit(d: nat): char
    requires d < 10
  {
    '0' + d as char
  }

  function Decimal(n: nat): string {
    if n < 10 then [Digit(n)] else Decimal(n / 10) + [Digit(n % 10)]
  }

  lemma WrapStep(m: nat, d: nat)
    ensures AsUInt32(AsUInt32(m) * 10 + d) == AsUInt32(m * 10 + d)
  {
    var q := m / 0x1_0000_0000;
    assert m == q * 0x1_0000_0000 + AsUInt32(m);
    assert m * 10 + d == (AsUInt32(m) * 10 + d) + 0x1_0000_0000 * (10 * q);
    WrapMultiple(AsUInt32(m) * 10 + d, 10 * q);
  }

  lemma {:induction false} WrapMultiple(x: nat, q: nat)
    ensures AsUInt32(x + 0x1_0000_0000 * q) == AsUInt32(x)
  {
    if q > 0 {
      WrapMultiple(x, q - 1);
      assert x + 0x1_0000_0000 * q == (x + 0x1_0000_0000 * (q - 1)) + 0x1_0000_0000;
    }
  }

  // The decimal text of any number is read back as that number modulo two to the thirty-second.
  lemma {:induction false} DecimalRoundTrip(n: nat)
    ensures StrToUInt(Decimal(n)) == Some(AsUInt32(n))
  {
    var s := Decimal(n);
    var init := s[..|s| - 1];
    if n < 10 {
      assert init == "";
    } else {
      assert init == Decimal(n / 10);
      DecimalRoundTrip(n / 10);
      WrapStep(n / 10, n % 10);
    }
  }
}

module ConfigCode {
  import opened Bytes
  import opened ConfigModel

  class CardEmulatorConfig {
    var devName: string
    var resetDelay: uint32
    var dataTXDelay: uint32
    var emulatorType: Kind

    constructor ()
      ensures Now() == DEFAULTS
    {
      devName := "/dev/ttyS0";
      resetDelay := 10000;
      dataTXDelay := 200;
      emulatorType := Dummy;
    }

    ghost function Now(): Settings
      reads this
    {
      Settings(devName, resetDelay, dataTXDelay, emulatorType)
    }

    // The loop of the constructor over the lines of the file. False stands for an exception.
    method ReadLines(lines: seq<string>) returns (ok: bool)
      requires Now() == DEFAULTS
      modifies this
      ensures if ok then Load(lines) == Some(Now()) else Load(lines) == None
    {
      var i := 0;
      while i < |lines|
        invariant 0 <= i <= |lines| && Load(lines[..i]) == Some(Now())
      {
        assert lines[..i + 1][..i] == lines[..i];
        ok := ParseLine(lines[i]);
        if !ok {
          FailsFromHere(lines, i + 1);
          return;
        }
        i := i + 1;
      }
      assert lines[..i] == lines;
      return true;
    }

    method ParseLine(line: string) returns (ok: bool)
      modifies this
      ensures ApplyLine(old(Now()), line) == if ok then Some(Now()) else None
    {
      hide Clean, Key, Apply;
      var cleanedLine: string := [];
      ghost var clean := Clean(line);
      var i := 0;
      while i < |line| && !EndsLine(line[i])
        invariant 0 <= i <= |clean| && cleanedLine == line[..i] && Now() == old(Now())
      {
        assert i < |clean| && line[..i + 1] == line[..i] + [line[i]];
        cleanedLine := cleanedLine + [line[i]];
        i := i + 1;
      }
      assert cleanedLine == clean by {
        assert i == |clean|;
      }
      if 0 == |cleanedLine| {
        return true;
      }
      var key: string := [];
      ghost var k := Key(clean);
      i := 0;
      while i < |cleanedLine| && cleanedLine[i] != '='
        invariant 0 <= i <= |k| && key == clean[..i] && Now() == old(Now())
      {
        assert i < |k| && clean[..i + 1] == clean[..i] + [clean[i]];
        key := key + [cleanedLine[i]];
        i := i + 1;
      }
      assert i == |k| && key == k;
      // The position behind the last character holds a NUL.
      if i == |cleanedLine| {
        return false;
      }
      var value: string := [];
      i := i + 1;
      while i < |cleanedLine|
        invariant |k| + 1 <= i <= |clean| && value == clean[|k| + 1..i] && Now() == old(Now())
      {
        assert clean[|k| + 1..i + 1] == clean[|k| + 1..i] + [clean[i]];
        value := value + [cleanedLine[i]];
        i := i + 1;
      }
      assert value == clean[|k| + 1..];
      ok := HandleKeyValue(key, value);
    }

    method HandleKeyValue(key: string, value: string) returns (ok: bool)
      modifies this
      ensures Apply(old(Now()), key, value) == if ok then Some(Now()) else None
    {
      if !(PREFIX <= key) {
        return true;
      }
      var configKey := key[|PREFIX|..];
      if "type" == configKey {
        ok := SetEmulatorType(value);
      } else if "dev_name" == configKey {
        devName := value;
        ok := true;
      } else if "data_tx_delay" == configKey {
        var n;
        ok, n := ReadUInt(value);
        if ok {
          dataTXDelay := n;
        }
      } else if "reset_delay" == configKey {
        var n;
        ok, n := ReadUInt(value);
        if ok {
          SetResetDelay(n);
        }
      } else {
        ok := true;
      }
    }

    method SetEmulatorType(value: string) returns (ok: bool)
      modifies this`emulatorType
      ensures KindOf(value) == if ok then Some(emulatorType) else None
      ensures !ok ==> emulatorType == old(emulatorType)
    {
      if "season" == value {
        emulatorType := SeasonKind;
      } else if "dummy" == value {
        emulatorType := Dummy;
      } else {
        return false;
      }
      return true;
    }

    // The field is assigned to itself, not the parameter.
    method SetResetDelay(newResetDelay: uint32)
      modifies this`resetDelay
      ensures resetDelay == old(resetDelay)
    {
      resetDelay := resetDelay;
    }
  }

  method ReadUInt(s: string) returns (ok: bool, n: uint32)
    ensures StrToUInt(s) == if ok then Some(n) else None
  {
    n := 0;
    var i := 0;
    while i < |s|
      invariant 0 <= i <= |s| && StrToUInt(s[..i]) == Some(n)
    {
      assert s[..i + 1][..i] == s[..i];
      if s[i] < '0' || s[i] > '9' {
        NotANumber(s, i + 1);
        return false, n;
      }
      n := AsUInt32(n * 10 + (s[i] as int - '0' as int));
      i := i + 1;
    }
    assert s[..i] == s;
    return true, n;
  }

  lemma {:induction false} NotANumber(s: string, i: nat)
    requires i <= |s| && StrToUInt(s[..i]) == None
    ensures StrToUInt(s) == None
  {
    if i == |s| {
      assert s[..i] == s;
    } else {
      assert s[..|s| - 1][..i] == s[..i];
      NotANumber(s[..|s| - 1], i);
    }
  }

  lemma {:induction false} FailsFromHere(lines: seq<string>, i: nat)
    requires i <= |lines| && Load(lines[..i]) == None
    ensures Load(lines) == None
  {
    if i == |lines| {
      assert lines[..i] == lines;
    } else {
      assert lines[..|lines| - 1][..i] == lines[..i];
      FailsFromHere(lines[..|lines| - 1], i);
    }
  }
}
