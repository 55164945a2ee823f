/** The bounded stack: a data array, the reservation counter `reserved`
    and, per slot, a read flag and a write flag. Each method is the
    single-threaded run of the source's operation; its postcondition ties
    the new shared state to the corresponding step of `StackSpec`, where
    the handshake invariant and LIFO order are proved.
 */
module ConcurrentStack {

  import opened Locks
  import opened StackSpec

  /** How one pass of the `pop` loop ends: go round again, or return. */
  datatype Attempt = Retry | Finished(result: Option<int>)

  class Stack {
    /** The payload cells (`UnsafeCell<Vec<T>>`): the vector is never
        replaced, only its cells are written. */
    const data: array<int>
    /** The reservation counter (`AtomicUsize`). */
    var reserved: nat
    /** Per-slot flags (`Box<[Lock]>`): fixed sequences of distinct locks
        whose bits change. */
    const safeToRead: seq<Lock>
    const safeToWrite: seq<Lock>

    /** One read flag and one write flag per cell. The flags are numbered
        (read flag of slot `i` is `i`, its write flag `-1 - i`), so no lock
        serves two roles or two slots. This depends only on constant
        fields, so no update of the heap can disturb it. */
    ghost predicate Layout() {
      |safeToRead| == data.Length && |safeToWrite| == data.Length &&
      (forall i :: 0 <= i < |safeToRead| ==> safeToRead[i].id == i) &&
      (forall i :: 0 <= i < |safeToWrite| ==> safeToWrite[i].id == -1 - i)
    }

    /** The layout, and the counter within the capacity. */
    ghost predicate Valid()
      reads this
    {
      Layout() && reserved <= data.Length
    }

    /** The shared state as a value. */
    ghost function Model(): StackState
      reads this, data, safeToRead, safeToWrite
    {
      StackState(reserved, data[..], Flags(safeToRead), Flags(safeToWrite))
    }

    /** `Stack::new`: every cell holds the default value, every slot is
        writable and not readable, nothing is reserved. */
    constructor (capacity: nat)
      ensures Valid() && data.Length == capacity
      ensures Model() == Initial(capacity)
      ensures fresh(data)
      ensures fresh(safeToRead) && fresh(safeToWrite)
    {
      var cells := new int[capacity];
      var readLocks: seq<Lock> := [];
      var writeLocks: seq<Lock> := [];
      for n := 0 to capacity
        invariant |readLocks| == n && |writeLocks| == n
        invariant forall k :: 0 <= k < n ==> cells[k] == DEFAULT
        invariant forall k :: 0 <= k < n ==>
          fresh(readLocks[k]) && fresh(writeLocks[k]) && !readLocks[k].state && writeLocks[k].state
        invariant forall k :: 0 <= k < n ==> readLocks[k].id == k && writeLocks[k].id == -1 - k
      {
        cells[n] := DEFAULT;
        var r := new Lock(false, n);
        var w := new Lock(true, -1 - n);
        readLocks := readLocks + [r];
        writeLocks := writeLocks + [w];
      }
      data := cells;
      reserved := 0;
      safeToRead := readLocks;
      safeToWrite := writeLocks;
      new;
      assert data[..] == Initial(capacity).data;
      assert Flags(safeToRead) == Initial(capacity).safeToRead;
      assert Flags(safeToWrite) == Initial(capacity).safeToWrite;
    }

    /** `push(value)`: claim slot `reserved` by incrementing the counter,
        consume the slot's write flag, store the value, raise its read
        flag. The source does no bounds check; a push past the capacity is
        excluded here. */
    method Push(value: int)
      requires Valid() && CanPush(Model())
      modifies this, data, safeToRead[reserved], safeToWrite[reserved]
      ensures Valid()
      ensures Model() == PushStep(old(Model()), value)
    {
      ghost var readBefore, writeBefore := Flags(safeToRead), Flags(safeToWrite);
      assert safeToWrite[reserved].state == writeBefore[reserved] && safeToRead[reserved].state == readBefore[reserved];
      var position := reserved;  // fetch_add(1)
      reserved := reserved + 1;
      safeToWrite[position].WaitForTrue();
      data[position] := value;
      safeToRead[position].SetTrue();
      SlotFlagsUpdate(safeToRead, readBefore, safeToWrite, writeBefore, position);
    }

    /** `get_and_clean(index)`: the cell's value. The clearing is commented
        out in the source, so the cell keeps its value. */
    method GetAndClean(index: nat) returns (value: int)
      requires index < data.Length
      ensures value == data[index]
    {
      value := data[index];
    }

    /** One pass through the body of the `pop` loop. It reads the counter
        and finishes with `None` on zero. Otherwise it calls `is_true` on the
        top slot's read flag; when that returns false (the flag was up, and
        is now cleared) the pass ends and the loop must go round again.
        When the flag was already down it moves the counter down by
        compare-and-swap, reads the cell, raises the slot's write flag and
        finishes with the value. */
    method PopRound() returns (attempt: Attempt)
      requires Valid() && CanPop(Model())
      modifies this, safeToRead, safeToWrite
      ensures Valid()
      ensures attempt == Retry <==> TopReadable(old(Model()))
      ensures attempt == Retry ==> Model() == RetryStep(old(Model()))
      ensures attempt.Finished? ==>
        Model() == PopStep(old(Model())).0 && attempt.result == PopStep(old(Model())).1
    {
      ghost var readBefore, writeBefore := Flags(safeToRead), Flags(safeToWrite);
      var currentPosition := reserved;  // load
      if currentPosition == 0 {
        return Finished(None);
      }
      var readPosition := currentPosition - 1;
      assert safeToWrite[readPosition].state == writeBefore[readPosition] && safeToRead[readPosition].state == readBefore[readPosition];
      var wasClear := safeToRead[readPosition].IsTrue();
      if !wasClear {
        SlotFlagsUpdate(safeToRead, readBefore, safeToWrite, writeBefore, readPosition);
        return Retry;  // the source's `continue`
      }
      // compare_exchange(currentPosition, readPosition) on the counter
      if reserved == currentPosition {
        reserved := readPosition;
        var value := GetAndClean(readPosition);
        safeToWrite[readPosition].SetTrue();
        SlotFlagsUpdate(safeToRead, readBefore, safeToWrite, writeBefore, readPosition);
        return Finished(Some(value));
      } else {
        // A lost race to another pop: cannot happen with a single caller.
        assert false;
      }
    }

    /** `pop()`: the retry loop around `PopRound`. `rounds` counts the
        passes: two when the top slot was readable, as it always is under
        the handshake, since the first `is_true` then reports false. */
    method Pop() returns (result: Option<int>, ghost rounds: nat)
      requires Valid() && CanPop(Model())
      modifies this, safeToRead, safeToWrite
      ensures Valid()
      ensures Model() == PopStep(old(Model())).0 && result == PopStep(old(Model())).1
      ensures rounds == if TopReadable(old(Model())) then 2 else 1
    {
      rounds := 0;
      while true
        invariant Valid() && CanPop(Model()) && rounds <= 1
        invariant rounds == 0 ==> Model() == old(Model())
        invariant rounds == 1 ==> TopReadable(old(Model())) && Model() == RetryStep(old(Model()))
        decreases 2 - rounds
      {
        rounds := rounds + 1;
        var attempt := PopRound();
        if attempt.Finished? {
          return attempt.result, rounds;
        }
      }
    }
  }
}
