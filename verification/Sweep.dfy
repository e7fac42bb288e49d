// closeInactiveClients on the memory of the vector: as written, and as meant.
module SweepModel {
  // What a sweep leaves in the vector and the objects it deleted, in order; Undefined as soon as
  // the code touches an object it has deleted or erases past the end.
  datatype Result<T> = Swept(vector: seq<T>, deleted: seq<T>) | Undefined

  // vector::erase moves the later elements down by one. The last cell keeps what it held, behind
  // the new end.
  function Erase<T>(cells: seq<T>, size: nat, i: nat): (r: seq<T>)
    requires i < size <= |cells|
    ensures |r| == |cells|
    ensures forall k | 0 <= k < |cells| :: r[k] == if i <= k < size - 1 then cells[k + 1] else cells[k]
  {
    cells[..i] + cells[i + 1..size] + cells[size - 1..]
  }

  lemma EraseMembers<T>(cells: seq<T>, size: nat, i: nat)
    requires i < size <= |cells|
    ensures forall k | 0 <= k < |cells| :: Erase(cells, size, i)[k] in cells
  {
  }

  // The loop as written, from position `it`. It runs to the end the vector had at the start, and
  // what it deletes is what the erased position holds after the elements have moved.
  function SweepFrom<T(==)>(cells: seq<T>, size: nat, it: nat, dead: set<T>, deleted: seq<T>): Result<T>
    requires size <= |cells| && it <= |cells|
    decreases |cells| - it
  {
    if it == |cells| then Swept(cells[..size], deleted)
    else if cells[it] in deleted then Undefined
    else if cells[it] !in dead then SweepFrom(cells, size, it + 1, dead, deleted)
    else if it >= size then Undefined
    else
      var moved := Erase(cells, size, it);
      SweepFrom(moved, size - 1, it + 1, dead, deleted + [moved[it]])
  }

  function Keep<T(==)>(v: seq<T>, dead: set<T>): seq<T> {
    if v == [] then []
    else (if v[0] in dead then [] else [v[0]]) + Keep(v[1..], dead)
  }

  function Drop<T(==)>(v: seq<T>, dead: set<T>): seq<T> {
    if v == [] then []
    else (if v[0] in dead then [v[0]] else []) + Drop(v[1..], dead)
  }

  lemma {:induction false} KeepMembers<T>(v: seq<T>, dead: set<T>)
    ensures forall k | 0 <= k < |Keep(v, dead)| :: Keep(v, dead)[k] in v && Keep(v, dead)[k] !in dead
    ensures forall k | 0 <= k < |v| :: v[k] !in dead ==> v[k] in Keep(v, dead)
  {
    if v != [] {
      var rest := Keep(v[1..], dead);
      KeepMembers(v[1..], dead);
      forall k | 0 <= k < |v| && v[k] !in dead
        ensures v[k] in Keep(v, dead)
      {
        if k > 0 {
          assert v[k] == v[1..][k - 1] && v[k] in rest;
        }
      }
    }
  }

  // The members of one sequence come in the order in which they stand in the other.
  ghost predicate InOrder<T(!new)>(part: seq<T>, v: seq<T>) {
    forall j, k | 0 <= j < k < |part| :: Ordered(part[j], part[k], v)
  }

  ghost predicate Ordered<T(!new)>(x: T, y: T, v: seq<T>) {
    exists a, b :: 0 <= a < b < |v| && v[a] == x && v[b] == y
  }

  lemma OrderedLater<T(!new)>(x: T, y: T, v: seq<T>)
    requires v != [] && Ordered(x, y, v[1..])
    ensures Ordered(x, y, v)
  {
    var rest := v[1..];
    var a, b :| 0 <= a < b < |rest| && rest[a] == x && rest[b] == y;
    assert v[a + 1] == x && v[b + 1] == y;
  }

  lemma OrderedFirst<T(!new)>(y: T, v: seq<T>)
    requires v != [] && y in v[1..]
    ensures Ordered(v[0], y, v)
  {
    var b :| 0 <= b < |v| - 1 && v[1..][b] == y;
    assert v[b + 1] == y;
  }

  // What is kept stays in order, and so does what is dropped, which is every dead element.
  lemma {:induction false} KeepInOrder<T(!new)>(v: seq<T>, dead: set<T>)
    ensures InOrder(Keep(v, dead), v)
  {
    if v != [] {
      var rest, kept := Keep(v[1..], dead), Keep(v, dead);
      KeepInOrder(v[1..], dead);
      KeepMembers(v[1..], dead);
      forall j, k | 0 <= j < k < |kept|
        ensures Ordered(kept[j], kept[k], v)
      {
        if v[0] in dead {
          assert kept[j] == rest[j] && kept[k] == rest[k];
          OrderedLater(kept[j], kept[k], v);
        } else if j == 0 {
          assert kept[k] == rest[k - 1];
          OrderedFirst(kept[k], v);
        } else {
          assert kept[j] == rest[j - 1] && kept[k] == rest[k - 1];
          OrderedLater(kept[j], kept[k], v);
        }
      }
    }
  }

  lemma {:induction false} DropMembers<T>(v: seq<T>, dead: set<T>)
    ensures forall x :: x in Drop(v, dead) <==> x in v && x in dead
    ensures |Drop(v, dead)| + |Keep(v, dead)| == |v|
  {
    if v != [] {
      DropMembers(v[1..], dead);
      assert v == [v[0]] + v[1..];
    }
  }

  predicate NoDuplicates<T(==)>(v: seq<T>) {
    forall j, k | 0 <= j < k < |v| :: v[j] != v[k]
  }

  // Only the last element may be dead.
  predicate OnlyLastDead<T(==)>(v: seq<T>, dead: set<T>) {
    forall k | 0 <= k < |v| - 1 :: v[k] !in dead
  }

  lemma {:induction false} KeepDropLive<T>(v: seq<T>, n: nat, dead: set<T>)
    requires n <= |v| && forall k | 0 <= k < n :: v[k] !in dead
    ensures Keep(v, dead) == v[..n] + Keep(v[n..], dead)
    ensures Drop(v, dead) == Drop(v[n..], dead)
  {
    if n == 0 {
      assert v[0..] == v;
    } else {
      KeepDropLive(v[1..], n - 1, dead);
      assert v[1..][n - 1..] == v[n..];
      assert v[..n] == [v[0]] + v[1..][..n - 1];
    }
  }

  lemma {:induction false} SkipLive<T>(cells: seq<T>, size: nat, it: nat, upto: nat, dead: set<T>, deleted: seq<T>)
    requires size <= |cells| && it <= upto <= |cells|
    requires forall k | it <= k < upto :: cells[k] !in dead && cells[k] !in deleted
    ensures SweepFrom(cells, size, it, dead, deleted) == SweepFrom(cells, size, upto, dead, deleted)
    decreases upto - it
  {
    if it < upto {
      SkipLive(cells, size, it + 1, upto, dead, deleted);
    }
  }

  // What has been deleted stays deleted.
  lemma {:induction false} DeletedGrows<T>(cells: seq<T>, size: nat, it: nat, dead: set<T>, deleted: seq<T>)
    requires size <= |cells| && it <= |cells|
    ensures var r := SweepFrom(cells, size, it, dead, deleted); r.Swept? ==> deleted <= r.deleted
    decreases |cells| - it
  {
    if it < |cells| && cells[it] !in deleted {
      if cells[it] !in dead {
        DeletedGrows(cells, size, it + 1, dead, deleted);
      } else if it < size {
        var moved := Erase(cells, size, it);
        DeletedGrows(moved, size - 1, it + 1, dead, deleted + [moved[it]]);
      }
    }
  }

  function FirstDead<T(==)>(v: seq<T>, dead: set<T>): (i: nat)
    ensures i <= |v| && (forall k | 0 <= k < i :: v[k] !in dead) && (i < |v| ==> v[i] in dead)
  {
    if v == [] || v[0] in dead then 0 else 1 + FirstDead(v[1..], dead)
  }

  lemma {:induction false} OneErase<T>(v: seq<T>, i: nat, dead: set<T>)
    requires i < |v| && v[i] in dead
    ensures var moved := Erase(v, |v|, i);
            && moved[i] == (if i < |v| - 1 then v[i + 1] else v[i])
            && (i == |v| - 1 ==> moved == v)
            && SweepFrom(v, |v|, i, dead, []) == SweepFrom(moved, |v| - 1, i + 1, dead, [moved[i]])
  {
    assert [] + [Erase(v, |v|, i)[i]] == [Erase(v, |v|, i)[i]];
  }

  lemma SweepStep<T>(cells: seq<T>, size: nat, it: nat, dead: set<T>, deleted: seq<T>)
    requires size <= |cells| && it < |cells|
    ensures SweepFrom(cells, size, it, dead, deleted) ==
            if cells[it] in deleted then Undefined
            else if cells[it] !in dead then SweepFrom(cells, size, it + 1, dead, deleted)
            else if it >= size then Undefined
            else SweepFrom(Erase(cells, size, it), size - 1, it + 1, dead, deleted + [Erase(cells, size, it)[it]])
  {
  }

  lemma {:induction false} SweepEnd<T>(cells: seq<T>, size: nat, dead: set<T>, deleted: seq<T>)
    requires size <= |cells|
    ensures SweepFrom(cells, size, |cells|, dead, deleted) == Swept(cells[..size], deleted)
  {
  }

  lemma {:induction false} SweepRight<T>(v: seq<T>, dead: set<T>)
    requires OnlyLastDead(v, dead)
    ensures SweepFrom(v, |v|, 0, dead, []) == Swept(Keep(v, dead), Drop(v, dead))
  {
    hide SweepFrom, Erase;
    var n, i := |v|, FirstDead(v, dead);
    SkipLive(v, n, 0, i, dead, []);
    KeepDropLive(v, i, dead);
    if i == n {
      SweepEnd(v, n, dead, []);
      assert v[..n] == v;
    } else {
      OneErase(v, i, dead);
      SweepEnd(v, n - 1, dead, [v[i]]);
      assert v[i..] == [v[i]];
      assert v[..n - 1] + [] == v[..n - 1];
    }
  }

  lemma {:induction false} SweepWrong<T>(v: seq<T>, dead: set<T>)
    requires NoDuplicates(v) && !OnlyLastDead(v, dead)
    ensures SweepFrom(v, |v|, 0, dead, []) != Swept(Keep(v, dead), Drop(v, dead))
  {
    hide SweepFrom, Erase;
    var n, i := |v|, FirstDead(v, dead);
    SkipLive(v, n, 0, i, dead, []);
    KeepDropLive(v, i, dead);
    OneErase(v, i, dead);
    DeletedGrows(Erase(v, n, i), n - 1, i + 1, dead, [v[i + 1]]);
    assert Drop(v, dead)[0] == v[i];
  }

  // The sweep as written keeps exactly the live elements, and deletes exactly the dead ones once
  // each, if and only if no element but the last is dead.
  lemma {:induction false} SweepRightIff<T>(v: seq<T>, dead: set<T>)
    requires NoDuplicates(v)
    ensures SweepFrom(v, |v|, 0, dead, []) == Swept(Keep(v, dead), Drop(v, dead)) <==> OnlyLastDead(v, dead)
  {
    if OnlyLastDead(v, dead) {
      SweepRight(v, dead);
    } else {
      SweepWrong(v, dead);
    }
  }

  // Three sessions, the first of them closed: the second, which is live, is deleted and stays in
  // the vector, and the closed one is lost without being deleted.
  lemma SweepDeletesSurvivor()
    ensures SweepFrom([10, 20, 30], 3, 0, {10}, []) == Swept([20, 30], [20])
  {
    var dead: set<int> := {10};
    var v, moved: seq<int> := [10, 20, 30], [20, 30, 30];
    assert Erase(v, 3, 0) == moved;
    assert SweepFrom(moved, 2, 1, dead, [20]) == SweepFrom(moved, 2, 3, dead, [20]) by {
      SkipLive(moved, 2, 1, 3, dead, [20]);
    }
    assert [] + [moved[0]] == [20];
  }
}
