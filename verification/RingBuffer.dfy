/** The fixed-capacity queue of `src/axi.hpp`, over an array with a moving head. */
module RingBuffers {
  import opened Arith

  /** Array index of the i-th queued element. */
  function Slot(head: nat, i: nat, n: nat): (k: nat)
    requires n > 0
    ensures k < n
  {
    (head + i) % n
  }

  class RingBuffer<T(0)> {
    const values: array<T>
    var head: nat
    var size: nat

    ghost predicate Valid()
      reads this
    {
      && values.Length > 0
      && head < values.Length
      && size <= values.Length
    }

    /** Oldest element first. */
    ghost function Contents(): (s: seq<T>)
      reads this, values
      requires Valid()
    {
      seq(size, i requires 0 <= i < size reads this, values requires Valid() => values[Slot(head, i, values.Length)])
    }

    constructor (capacity: nat)
      requires capacity > 0
      ensures Valid() && fresh(values) && values.Length == capacity
      ensures Contents() == []
    {
      values := new T[capacity];
      head, size := 0, 0;
    }

    predicate Full()
      reads this
    {
      size == values.Length
    }

    method Front() returns (found: bool, value: T)
      requires Valid()
      ensures found <==> Contents() != []
      ensures found ==> value == Contents()[0]
    {
      ModSmall(head, values.Length);
      value := values[head];
      found := size != 0;
    }

    /** Appends unless the buffer is full, in which case nothing changes. */
    method Push(value: T) returns (ok: bool)
      requires Valid()
      modifies this, values
      ensures Valid()
      ensures ok <==> |old(Contents())| < values.Length
      ensures Contents() == if ok then old(Contents()) + [value] else old(Contents())
    {
      if Full() {
        return false;
      }
      var slot := Slot(head, size, values.Length);
      forall i | 0 <= i < size ensures Slot(head, i, values.Length) != slot {
        RingSlotsDiffer(head, i, size, values.Length);
      }
      values[slot] := value;
      size := size + 1;
      assert Contents() == old(Contents()) + [value];
      ok := true;
    }

    /** Drops the oldest element; an empty buffer is refused and unchanged. */
    method Pop() returns (ok: bool)
      requires Valid()
      modifies this
      ensures Valid()
      ensures ok <==> old(Contents()) != []
      ensures Contents() == if ok then old(Contents())[1..] else old(Contents())
    {
      if size == 0 {
        return false;
      }
      forall i | 0 <= i < size - 1
        ensures Slot(Slot(head, 1, values.Length), i, values.Length) == Slot(head, i + 1, values.Length)
      {
        RingStep(head, i, values.Length);
      }
      head := Slot(head, 1, values.Length);
      size := size - 1;
      assert Contents() == old(Contents())[1..];
      ok := true;
    }

    method Clear()
      requires Valid()
      modifies this
      ensures Valid() && Contents() == []
    {
      head, size := 0, 0;
    }
  }

  lemma RingSlotsDiffer(head: nat, i: nat, j: nat, n: nat)
    requires head < n && i < j < n
    ensures Slot(head, i, n) != Slot(head, j, n)
  {
    var slot := (head + i) % n;
    DivMod(head + i, n);
    StepsToReaches(head, slot, n, i);
    StepsToReaches(head, slot, n, j);
  }

  lemma RingStep(head: nat, i: nat, n: nat)
    requires head < n
    ensures Slot(Slot(head, 1, n), i, n) == Slot(head, i + 1, n)
  {
    DivMod(head + 1, n);
    ModAddMultiple((head + 1) % n + i, (head + 1) / n, n);
  }
}
