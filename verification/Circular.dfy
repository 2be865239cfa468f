/** Positions in a circular buffer. */
module Circular {
  import opened Checked

  /** The cell of the i-th element after the head. */
  function Slot(head: nat, i: nat, n: nat): (c: nat)
    requires head < n && i <= n
    ensures c < n && c == (head + i) % n
  {
    SlotIsRemainder(head, i, n);
    if head + i < n then head + i else head + i - n
  }

  lemma SlotIsRemainder(head: nat, i: nat, n: nat)
    requires head < n && i <= n
    ensures (head + i) % n == if head + i < n then head + i else head + i - n
  {
    var r := if head + i < n then head + i else head + i - n;
    SmallRemainder(r, n);
    if head + i >= n {
      Cancel(r, 1, n);
    }
  }

  lemma SmallRemainder(r: nat, n: nat)
    requires r < n
    ensures r % n == r
  {
    assert r == (r / n) * n + r % n;
    SmallMultiple(r / n, n, r - r % n);
  }

  lemma SlotsDiffer(head: nat, i: nat, j: nat, n: nat)
    requires head < n && i < n && j < n && i != j
    ensures Slot(head, i, n) != Slot(head, j, n)
  {}

  /** Moving the head on by one moves every element back by one. */
  lemma HeadMoves(head: nat, i: nat, n: nat)
    requires head < n && i < n
    ensures Slot(Slot(head, 1, n), i, n) == Slot(head, i + 1, n)
    ensures Slot(head, n, n) == head
  {}

  /** The elements of a circular buffer, from the head on. */
  function Elements<T>(cells: seq<T>, head: nat, size: nat): (r: seq<T>)
    requires (|cells| == 0 ==> size == 0) && (|cells| > 0 ==> head < |cells|) && size <= |cells|
    ensures |r| == size
  {
    seq(size, i requires 0 <= i < size => cells[Slot(head, i, |cells|)])
  }

  lemma AppendCell<T>(cells: seq<T>, head: nat, size: nat, x: T)
    requires head < |cells| && size < |cells|
    ensures Elements(cells[Slot(head, size, |cells|) := x], head, size + 1) == Elements(cells, head, size) + [x]
  {
    forall i | 0 <= i < size
      ensures Slot(head, i, |cells|) != Slot(head, size, |cells|)
    {
      SlotsDiffer(head, i, size, |cells|);
    }
  }

  /** Overwriting the head of a full buffer and moving on drops the first and appends. */
  lemma RotateCell<T>(cells: seq<T>, head: nat, x: T)
    requires head < |cells|
    ensures (var n := |cells|;
      Elements(cells[head := x], Slot(head, 1, n), n) == Elements(cells, head, n)[1..] + [x])
  {
    var n := |cells|;
    var now := Elements(cells[head := x], Slot(head, 1, n), n);
    forall i | 0 <= i < n
      ensures now[i] == (Elements(cells, head, n)[1..] + [x])[i]
    {
      HeadMoves(head, i, n);
      if i + 1 < n {
        SlotsDiffer(head, 0, i + 1, n);
      }
    }
  }

  /** Forgetting the head drops the first element, whatever its cell is reset to. */
  lemma DropCell<T>(cells: seq<T>, head: nat, size: nat, blank: T)
    requires head < |cells| && 0 < size <= |cells|
    ensures (var n := |cells|;
      Elements(cells[head := blank], Slot(head, 1, n), size - 1) == Elements(cells, head, size)[1..])
  {
    var n := |cells|;
    var now := Elements(cells[head := blank], Slot(head, 1, n), size - 1);
    forall i | 0 <= i < size - 1
      ensures now[i] == Elements(cells, head, size)[1..][i]
    {
      HeadMoves(head, i, n);
      SlotsDiffer(head, 0, i + 1, n);
    }
  }

  lemma ReplaceCell<T>(cells: seq<T>, head: nat, size: nat, i: nat, x: T)
    requires head < |cells| && i < size <= |cells|
    ensures Elements(cells[Slot(head, i, |cells|) := x], head, size) == Elements(cells, head, size)[i := x]
  {
    forall j | 0 <= j < size && j != i
      ensures Slot(head, j, |cells|) != Slot(head, i, |cells|)
    {
      SlotsDiffer(head, i, j, |cells|);
    }
  }
}
