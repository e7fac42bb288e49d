// Bytes as the C++ code stores them, and the integer conversions it performs on them.
module Bytes {
  // One `char` or `unsigned char`, named by its bit pattern.
  type byte = x: int | 0 <= x < 0x100

  // Data_t, std::string and the contents of a PacketData are all byte sequences.
  type Data = seq<byte>

  type uint16 = x: int | 0 <= x < 0x1_0000

  type uint32 = x: int | 0 <= x < 0x1_0000_0000

  datatype Option<+T> = None | Some(value: T)

  // Assigning an integer to a uint16_t keeps its low sixteen bits.
  function AsUInt16(x: int): uint16 {
    x % 0x1_0000
  }

  function AsUInt32(x: int): uint32 {
    x % 0x1_0000_0000
  }

  // Assigning an integer to a char keeps its low eight bits.
  function AsChar(x: int): byte {
    x % 0x100
  }

  // The value a signed char with this bit pattern has once it is promoted to int.
  function SignedChar(b: byte): int {
    if b < 0x80 then b else b - 0x100
  }

  predicate NulFree(s: Data) {
    forall i | 0 <= i < |s| :: s[i] != 0
  }

  // The part of a std::string that a comparison stopping at the first NUL can see.
  function CStr(s: Data): (r: Data)
    ensures NulFree(r) && r <= s
    ensures |r| < |s| ==> s[|r|] == 0
  {
    if s == [] || s[0] == 0 then [] else [s[0]] + CStr(s[1..])
  }

  lemma {:induction false} CStrOfNulFree(s: Data)
    requires NulFree(s)
    ensures CStr(s) == s
  {
    if s != [] {
      CStrOfNulFree(s[1..]);
    }
  }
}

// getSize and setSize operator by operator, on bits.
module Bits {
  // A signed char as an int.
  function Promote(c: bv8): bv32 {
    if c & 0x80 == 0 then c as bv32 else 0xFFFF_FF00 | (c as bv32)
  }

  function GetSize(b0: bv8, b1: bv8): bv16 {
    (((Promote(b0) << 8) & 0xFFFF) as bv16) | ((Promote(b1) & 0x00FF) as bv16)
  }

  function SetSize(size: bv16): (bv8, bv8) {
    (((size >> 8) & 0x00FF) as bv8, (size & 0x00FF) as bv8)
  }

  lemma Sum(b0: bv8, b1: bv8)
    ensures GetSize(b0, b1) == (b0 as bv16) * 0x100 + (b1 as bv16)
  {
  }

  lemma SumOfInts(b0: bv8, b1: bv8)
    ensures GetSize(b0, b1) as int == 0x100 * (b0 as int) + (b1 as int)
  {
    Sum(b0, b1);
  }

  lemma SetThenGet(size: bv16)
    ensures var b := SetSize(size); GetSize(b.0, b.1) == size
  {
  }

  lemma SetSizeSplit(size: bv16)
    ensures var b := SetSize(size); size as int == 0x100 * (b.0 as int) + (b.1 as int)
  {
    hide GetSize, SetSize;
    SetThenGet(size);
    SumOfInts(SetSize(size).0, SetSize(size).1);
  }
}
