// The owning byte buffer that packets travel in.
module Packets {
  import opened Bytes

  class PacketData {
    var size: nat
    var data: array?<byte>

    constructor ()
      ensures Valid() && Bytes() == [] && data == null
    {
      size := 0;
      data := null;
    }

    constructor FromBuffer(buf: array<byte>, n: nat)
      requires n <= buf.Length
      ensures Valid() && Bytes() == buf[..n] && fresh(data)
    {
      var copy := new byte[n];
      size := n;
      data := copy;
      new;
      CopyRange(copy, 0, buf, n);
    }

    // An empty packet without a buffer is copied into one that owns an empty buffer.
    constructor Copy(rhs: PacketData)
      requires rhs.Valid()
      ensures Valid() && Bytes() == rhs.Bytes() && fresh(data)
    {
      var copy := new byte[rhs.size];
      size := rhs.size;
      data := copy;
      new;
      if rhs.data != null {
        CopyRange(copy, 0, rhs.data, rhs.size);
      }
    }

    // The size is always the length of the buffer owned.
    ghost predicate Valid()
      reads this
    {
      if data == null then size == 0 else data.Length == size
    }

    ghost function Bytes(): Data
      requires Valid()
      reads this, data
    {
      if data == null then [] else data[..]
    }

    method Clear()
      requires Valid()
      modifies this
      ensures Valid() && Bytes() == [] && data == null
    {
      data := null;
      size := 0;
    }

    method SetData(buf: array<byte>, n: nat)
      requires Valid() && n <= buf.Length
      modifies this
      ensures Valid() && Bytes() == old(buf[..n]) && fresh(data)
    {
      Clear();
      size := n;
      var copy := new byte[n];
      CopyRange(copy, 0, buf, n);
      data := copy;
    }

    method Assign(rhs: PacketData)
      requires Valid() && rhs.Valid()
      modifies this
      ensures Valid() && Bytes() == old(rhs.Bytes())
      ensures if this == rhs then data == old(data) else fresh(data)
    {
      if this == rhs {
        return;
      }
      var copy := new byte[rhs.size];
      if rhs.data != null {
        CopyRange(copy, 0, rhs.data, rhs.size);
      }
      size := rhs.size;
      data := copy;
    }

    // operator+
    method Plus(rhs: PacketData) returns (sum: PacketData)
      requires Valid() && rhs.Valid()
      ensures fresh(sum) && sum.Valid() && fresh(sum.data)
      ensures sum.Bytes() == Bytes() + rhs.Bytes()
    {
      var newSize := size + rhs.size;
      var newData := new byte[newSize];
      if data != null {
        CopyRange(newData, 0, data, size);
      }
      if rhs.data != null {
        CopyRange(newData, size, rhs.data, rhs.size);
      }
      assert newData[..newSize] == Bytes() + rhs.Bytes();
      sum := new PacketData.FromBuffer(newData, newSize);
    }
  }

  // The copying loop that all the operations above share.
  method CopyRange(dst: array<byte>, at: nat, src: array<byte>, n: nat)
    requires dst != src && n <= src.Length && at + n <= dst.Length
    modifies dst
    ensures dst[..at + n] == old(dst[..at]) + src[..n]
  {
    var i := 0;
    while i < n
      invariant 0 <= i <= n
      invariant dst[..at + i] == old(dst[..at]) + src[..i]
    {
      ghost var before := dst[..at + i];
      dst[at + i] := src[i];
      assert dst[..at + i + 1] == before + [src[i]];
      assert src[..i + 1] == src[..i] + [src[i]];
      i := i + 1;
    }
  }
}

// Any run of packet operations over any number of packets, as operations on byte sequences.
module PacketRuns {
  import opened Bytes
  import opened Packets

  // The packets alive are numbered. Making one adds it at the end, destroying one closes the gap.
  datatype Op =
    | New
    | FromBuffer(bytes: Data)
    | Copy(j: nat)
    | Clear(i: nat)
    | SetData(i: nat, newBytes: Data)
    | Assign(i: nat, j: nat)
    | Plus(i: nat, j: nat)
    | Destroy(i: nat)

  predicate Can(n: nat, op: Op) {
    match op
    case New => true
    case FromBuffer(_) => true
    case Copy(j) => j < n
    case Clear(i) => i < n
    case SetData(i, _) => i < n
    case Assign(i, j) => i < n && j < n
    case Plus(i, j) => i < n && j < n
    case Destroy(i) => i < n
  }

  function Do(datas: seq<Data>, op: Op): seq<Data>
    requires Can(|datas|, op)
  {
    match op
    case New => datas + [[]]
    case FromBuffer(bytes) => datas + [bytes]
    case Copy(j) => datas + [datas[j]]
    case Clear(i) => datas[i := []]
    case SetData(i, bytes) => datas[i := bytes]
    case Assign(i, j) => datas[i := datas[j]]
    case Plus(i, j) => datas + [datas[i] + datas[j]]
    case Destroy(i) => datas[..i] + datas[i + 1..]
  }

  // Operations on packets that are not there are skipped.
  function Run(datas: seq<Data>, ops: seq<Op>): seq<Data> {
    if ops == [] then datas
    else
      var before := Run(datas, ops[..|ops| - 1]);
      if Can(|before|, ops[|ops| - 1]) then Do(before, ops[|ops| - 1]) else before
  }

  // Every packet owns a buffer of its size or none, and no two own the same.
  ghost predicate Apart(pool: seq<PacketData>)
    reads pool
  {
    && (forall k | 0 <= k < |pool| :: pool[k].Valid())
    && (forall j, k | 0 <= j < k < |pool| ::
          pool[j] != pool[k] && (pool[j].data == null || pool[j].data != pool[k].data))
  }

  ghost function Datas(pool: seq<PacketData>): (r: seq<Data>)
    requires Apart(pool)
    reads pool, set p | p in pool :: p.data
    ensures |r| == |pool| && forall k | 0 <= k < |pool| :: r[k] == pool[k].Bytes()
  {
    seq(|pool|, k requires 0 <= k < |pool| && pool[k].Valid() reads pool, set p | p in pool :: p.data =>
      pool[k].Bytes())
  }

  method Buffer(bytes: Data) returns (buf: array<byte>)
    ensures fresh(buf) && buf[..buf.Length] == bytes
  {
    buf := new byte[|bytes|](k requires 0 <= k < |bytes| => bytes[k]);
    assert buf[..buf.Length] == bytes;
  }

  // The operations that change one packet in place leave the bytes of all others as they were, and
  // share no buffer with them.
  method ClearAt(pool: seq<PacketData>, i: nat)
    requires Apart(pool) && i < |pool|
    modifies pool[i]
    ensures Apart(pool) && Datas(pool) == old(Datas(pool))[i := []]
  {
    pool[i].Clear();
    assert forall k | 0 <= k < |pool| && k != i :: pool[k].Bytes() == old(pool[k].Bytes());
  }

  method SetAt(pool: seq<PacketData>, i: nat, bytes: Data)
    requires Apart(pool) && i < |pool|
    modifies pool[i]
    ensures Apart(pool) && Datas(pool) == old(Datas(pool))[i := bytes]
  {
    var buf := Buffer(bytes);
    pool[i].SetData(buf, buf.Length);
    assert forall k | 0 <= k < |pool| && k != i :: pool[k].Bytes() == old(pool[k].Bytes());
  }

  method AssignAt(pool: seq<PacketData>, i: nat, j: nat)
    requires Apart(pool) && i < |pool| && j < |pool|
    modifies pool[i]
    ensures Apart(pool) && Datas(pool) == old(Datas(pool))[i := old(Datas(pool))[j]]
  {
    pool[i].Assign(pool[j]);
    assert forall k | 0 <= k < |pool| && k != i :: pool[k].Bytes() == old(pool[k].Bytes());
  }

  method Change(pool: seq<PacketData>, op: Op)
    requires Apart(pool) && Can(|pool|, op) && (op.Clear? || op.SetData? || op.Assign?)
    modifies pool
    ensures Apart(pool) && Datas(pool) == Do(old(Datas(pool)), op)
  {
    hide Apart;
    if op.Clear? {
      ClearAt(pool, op.i);
    } else if op.SetData? {
      SetAt(pool, op.i, op.newBytes);
    } else {
      AssignAt(pool, op.i, op.j);
    }
  }

  // The operations that make a packet.
  method Make(pool: seq<PacketData>, op: Op) returns (p: PacketData)
    requires Apart(pool) && Can(|pool|, op) && (op.New? || op.FromBuffer? || op.Copy? || op.Plus?)
    ensures fresh(p) && p.Valid() && (p.data == null || fresh(p.data))
    ensures Apart(pool) && Do(Datas(pool), op) == Datas(pool) + [p.Bytes()]
  {
    if op.New? {
      p := new PacketData();
    } else if op.FromBuffer? {
      var buf := Buffer(op.bytes);
      p := new PacketData.FromBuffer(buf, buf.Length);
    } else if op.Copy? {
      p := new PacketData.Copy(pool[op.j]);
    } else {
      p := pool[op.i].Plus(pool[op.j]);
    }
  }

  lemma Joins(pool: seq<PacketData>, p: PacketData)
    requires Apart(pool) && p.Valid()
    requires forall k | 0 <= k < |pool| :: pool[k] != p && (p.data == null || pool[k].data != p.data)
    ensures Apart(pool + [p]) && Datas(pool + [p]) == Datas(pool) + [p.Bytes()]
  {
    var next := pool + [p];
    assert forall k | 0 <= k < |pool| :: next[k] == pool[k];
  }

  lemma StayApart(pool: seq<PacketData>, i: nat)
    requires Apart(pool) && i < |pool|
    ensures Apart(pool[..i] + pool[i + 1..])
  {
    var next := pool[..i] + pool[i + 1..];
    forall j, k | 0 <= j < k < |next|
      ensures next[k].Valid() && next[j].Valid()
      ensures next[j] != next[k] && (next[j].data == null || next[j].data != next[k].data)
    {
      var from, to := if j < i then j else j + 1, if k < i then k else k + 1;
      assert next[j] == pool[from] && next[k] == pool[to];
    }
    forall k | 0 <= k < |next|
      ensures next[k].Valid()
    {
      assert next[k] == pool[if k < i then k else k + 1];
    }
  }

  lemma Leaves(pool: seq<PacketData>, i: nat)
    requires Apart(pool) && i < |pool|
    ensures Apart(pool[..i] + pool[i + 1..])
    ensures Datas(pool[..i] + pool[i + 1..]) == Do(Datas(pool), Destroy(i))
  {
    hide Apart;
    var next, expected := pool[..i] + pool[i + 1..], Do(Datas(pool), Destroy(i));
    StayApart(pool, i);
    forall k | 0 <= k < |next|
      ensures Datas(next)[k] == expected[k]
    {
      if k < i {
        assert next[k] == pool[k];
      } else {
        assert next[k] == pool[k + 1];
      }
    }
  }

  method Perform(pool: seq<PacketData>, op: Op) returns (next: seq<PacketData>)
    requires Apart(pool) && Can(|pool|, op)
    modifies pool
    ensures Apart(next) && Datas(next) == Do(old(Datas(pool)), op)
    ensures forall k | 0 <= k < |next| :: next[k] in pool || fresh(next[k])
  {
    hide Do;
    if op.Destroy? {
      Leaves(pool, op.i);
      next := pool[..op.i] + pool[op.i + 1..];
    } else if op.Clear? || op.SetData? || op.Assign? {
      Change(pool, op);
      next := pool;
    } else {
      var p := Make(pool, op);
      Joins(pool, p);
      next := pool + [p];
    }
  }

  // Whatever is done to the packets, they hold the bytes that the byte sequences say, and never
  // come to share a buffer.
  method RunAll(pool: seq<PacketData>, ops: seq<Op>) returns (next: seq<PacketData>)
    requires Apart(pool)
    modifies pool
    ensures Apart(next) && Datas(next) == Run(old(Datas(pool)), ops)
  {
    hide Do, Can, Apart, Run;
    RunNone(Datas(pool));
    next := pool;
    ghost var start := Datas(pool);
    var n := 0;
    while n < |ops|
      invariant 0 <= n <= |ops|
      invariant Apart(next) && Datas(next) == Run(start, ops[..n])
      invariant forall k | 0 <= k < |next| :: next[k] in pool || fresh(next[k])
    {
      RunOneMore(start, ops, n);
      if Can(|next|, ops[n]) {
        next := Perform(next, ops[n]);
      }
      n := n + 1;
    }
    assert ops[..n] == ops;
  }

  lemma {:induction false} RunNone(datas: seq<Data>)
    ensures Run(datas, []) == datas
  {
  }

  lemma {:induction false} RunOneMore(datas: seq<Data>, ops: seq<Op>, n: nat)
    requires n < |ops|
    ensures var before := Run(datas, ops[..n]);
            Run(datas, ops[..n + 1]) == if Can(|before|, ops[n]) then Do(before, ops[n]) else before
  {
    assert ops[..n + 1][..n] == ops[..n];
  }

  // data = data + body, as PSCProxyProtocol::read does it: a sum, an assignment, and the end of the
  // temporary. The packet holds the header and then the body; the body is as it was.
  lemma HeaderThenBody(header: Data, body: Data)
    ensures Run([header, body], [Plus(0, 1), Assign(0, 2), Destroy(2)]) == [header + body, body]
  {
    var ops := [Plus(0, 1), Assign(0, 2), Destroy(2)];
    assert ops[..2] == [Plus(0, 1), Assign(0, 2)] && ops[..2][..1] == [Plus(0, 1)] && ops[..2][..1][..0] == [];
    assert Run([header, body], ops[..2][..1][..0]) == [header, body];
    assert Run([header, body], ops[..2][..1]) == [header, body, header + body];
    assert Run([header, body], ops[..2]) == [header + body, body, header + body];
  }
}
