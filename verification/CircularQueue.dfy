/** The pool's circular buffers (packages/inference/native/expert-io.c:42-43): a fixed array with
    head, tail and length counters that wrap at the capacity, refining a first-in first-out sequence. */
module CircularQueues {
  import opened Words

  /** The cell at distance x from cell 0, for x less than one lap past the end. */
  function Wrap(x: nat, capacity: nat): nat
    requires x < 2 * capacity
  {
    if x < capacity then x else x - capacity
  }

  /** Counting modulo the capacity is wrapping once, as long as no more than one lap is taken. */
  lemma WrapIsModulo(x: nat, capacity: nat)
    requires x < 2 * capacity
    ensures Wrap(x, capacity) == x % capacity
  {
    if x >= capacity {
      assert x == capacity * 1 + (x - capacity);
    }
  }

  /** The sequence a ring of cells holds: `len` elements, the first of them in cell `head`. */
  function Ring<T>(cells: seq<T>, head: nat, len: nat): (s: seq<T>)
    requires head < |cells| && len <= |cells|
    ensures |s| == len
    ensures forall k :: 0 <= k < len ==> s[k] == cells[Wrap(head + k, |cells|)]
  {
    seq(len, k requires 0 <= k < len => cells[Wrap(head + k, |cells|)])
  }

  /** Writing the cell after the last element appends to the sequence. */
  lemma RingPush<T>(cells: seq<T>, head: nat, len: nat, x: T)
    requires head < |cells| && len < |cells|
    ensures Ring(cells[Wrap(head + len, |cells|) := x], head, len + 1) == Ring(cells, head, len) + [x]
  {
  }

  /** Moving the head on by one cell drops the first element and keeps the others in order. */
  lemma RingPop<T>(cells: seq<T>, head: nat, len: nat)
    requires head < |cells| && 0 < len <= |cells|
    ensures Ring(cells, head, len) == [cells[head]] + Ring(cells, Wrap(head + 1, |cells|), len - 1)
  {
  }

  class CircularQueue<T(0)> {
    const capacity: uint32
    const items: array<T>
    var head: uint32
    var tail: uint32
    var len: uint32

    ghost predicate Valid()
      reads this
    {
      && 0 < capacity as int < UINT32_MAX
      && items.Length == capacity as int
      && head < capacity
      && len <= capacity
      && tail as int == Wrap(head as int + len as int, capacity as int)
    }

    ghost function Contents(): (s: seq<T>)
      reads this, items
      requires Valid()
    {
      Ring(items[..], head as int, len as int)
    }

    constructor (capacity: uint32)
      requires 0 < capacity as int < UINT32_MAX
      ensures Valid() && fresh(items)
      ensures Contents() == [] && this.capacity == capacity
    {
      this.capacity := capacity;
      items := new T[capacity];
      head, tail, len := 0, 0, 0;
    }

    method Push(x: T)
      requires Valid()
      requires len < capacity
      modifies this, items
      ensures Valid() && len == old(len) + 1
      ensures Contents() == old(Contents()) + [x]
    {
      RingPush(items[..], head as int, len as int, x);
      WrapIsModulo(tail as int + 1, capacity as int);
      items[tail] := x;
      assert items[..] == old(items[..])[tail as int := x];
      tail := (tail + 1) % capacity;
      len := len + 1;
    }

    method Pop() returns (x: T)
      requires Valid()
      requires len > 0
      modifies this
      ensures Valid() && len == old(len) - 1
      ensures old(Contents()) == [x] + Contents()
    {
      RingPop(items[..], head as int, len as int);
      WrapIsModulo(head as int + 1, capacity as int);
      x := items[head];
      head := (head + 1) % capacity;
      len := len - 1;
    }
  }
}
