/** Circular buffers of 64 slots: the sequence they hold, and what their updates do to it. */
module Ring64 {
  import opened Seqs

  const SIZE: nat := 64

  function Slot(head: nat, i: nat): (r: nat)
    ensures r < SIZE
  {
    (head + i) % SIZE
  }

  /** The `count` elements from `head` on. */
  function Logical<T>(r: seq<T>, head: nat, count: nat): (q: seq<T>)
    requires |r| == SIZE && count <= SIZE
    ensures |q| == count
    ensures forall i :: 0 <= i < count ==> q[i] == r[Slot(head, i)]
  {
    seq(count, i requires 0 <= i < count => r[Slot(head, i)])
  }

  lemma SlotInjective(head: nat, i: nat, j: nat)
    requires i < SIZE && j < SIZE && Slot(head, i) == Slot(head, j)
    ensures i == j
  {
    var k := (head + i) / SIZE - (head + j) / SIZE;
    assert i - j == SIZE * k;
  }

  lemma NextSlot(head: nat, i: nat)
    ensures Slot(head, i + 1) == (Slot(head, i) + 1) % SIZE
    ensures Slot(head, i) == (Slot(head, i + 1) - 1 + SIZE) % SIZE
    ensures Slot((head + 1) % SIZE, i) == Slot(head, i + 1)
    ensures head < SIZE ==> Slot(head, 0) == head
  {
  }

  /** Writing behind the last element appends. */
  lemma Append<T>(r: seq<T>, head: nat, count: nat, x: T)
    requires |r| == SIZE && count < SIZE
    ensures Logical(r[Slot(head, count) := x], head, count + 1) == Logical(r, head, count) + [x]
  {
    hide Slot;
    forall i | 0 <= i < count
      ensures Slot(head, i) != Slot(head, count)
    {
      if Slot(head, i) == Slot(head, count) {
        SlotInjective(head, i, count);
      }
    }
  }

  /** Advancing the head drops the first element. */
  lemma DropFirst<T>(r: seq<T>, head: nat, count: nat)
    requires |r| == SIZE && 0 < count <= SIZE
    ensures Logical(r, (head + 1) % SIZE, count - 1) == Logical(r, head, count)[1..]
    ensures Slot((head + 1) % SIZE, count - 1) == Slot(head, count)
  {
    hide Slot;
    var s, q := Logical(r, (head + 1) % SIZE, count - 1), Logical(r, head, count)[1..];
    forall i | 0 <= i < count - 1
      ensures s[i] == q[i]
    {
      NextSlot(head, i);
    }
    NextSlot(head, count - 1);
  }

  /** Element `i` of a queue in which the elements from `k` to `m` have been moved up by one. */
  function Shifted<T>(q: seq<T>, k: nat, m: nat, i: nat): T
    requires i < |q| && m < |q|
  {
    if k <= i < m then q[i + 1] else q[i]
  }
}
