/** The one-bit permission flag each stack slot uses twice (once to gate
    writing, once to gate reading). Every operation is a compare-and-swap on
    the bit; in a sequential run an atomic operation is an ordinary update.
 */
module Locks {

  class Lock {
    var state: bool
    /** A name for the flag, used only in proofs to tell flags apart. */
    ghost const id: int

    /** `Lock::new(state)`. The extra `id` is a proof-only name that keeps
        the stack's flags distinct (see `Stack.Layout`). */
    constructor (state: bool, ghost id: int)
      ensures this.state == state && this.id == id
    {
      this.state := state;
      this.id := id;
    }

    /** `compare_exchange(current, desired)` on the bit: `swapped` is the
        `is_ok()` of the Rust call. */
    method CompareExchange(current: bool, desired: bool) returns (swapped: bool)
      modifies this
      ensures swapped == (old(state) == current)
      ensures state == if swapped then desired else old(state)
    {
      swapped := state == current;
      if swapped {
        state := desired;
      }
    }

    /** false -> true. The source retries the swap until it succeeds; alone,
        the flag can only be false if the loop is to end, and then the
        first attempt succeeds. */
    method SetTrue()
      requires !state
      modifies this
      ensures state
    {
      var swapped := CompareExchange(false, true);
      assert swapped;  // so the retry loop is never entered
    }

    /** true -> false, retried like `SetTrue`. */
    method SetFalse()
      requires state
      modifies this
      ensures !state
    {
      var swapped := CompareExchange(true, false);
      assert swapped;
    }

    /** A single true -> false attempt. The result is the `is_err()` of the
        swap: it is true exactly when the flag was ALREADY false, and false
        when the flag was true and has just been cleared. Either way the
        flag ends false; it is never raised. */
    method IsTrue() returns (r: bool)
      modifies this
      ensures r == !old(state)
      ensures !state
    {
      var swapped := CompareExchange(true, false);
      r := !swapped;
    }

    /** Waits for true, then consumes it (true -> false); the same swap as
        `SetFalse`, retried. */
    method WaitForTrue()
      requires state
      modifies this
      ensures !state
    {
      var swapped := CompareExchange(true, false);
      assert swapped;
    }
  }

  /** The bits of a sequence of flags, in order. */
  ghost function Flags(locks: seq<Lock>): (r: seq<bool>)
    reads locks
    ensures |r| == |locks|
    ensures forall i {:trigger r[i]} :: 0 <= i < |locks| ==> r[i] == locks[i].state
  {
    seq(|locks|, i requires 0 <= i < |locks| reads locks => locks[i].state)
  }

  /** When only slot `k`'s flags may have changed in two parallel
      sequences of flags, the new bits are the old ones with entry `k`
      replaced in each. */
  lemma SlotFlagsUpdate(read: seq<Lock>, readBefore: seq<bool>, write: seq<Lock>, writeBefore: seq<bool>, k: nat)
    requires k < |read| == |readBefore| == |write| == |writeBefore|
    requires forall i :: 0 <= i < |read| && i != k ==>
      read[i].state == readBefore[i] && write[i].state == writeBefore[i]
    ensures Flags(read) == readBefore[k := read[k].state]
    ensures Flags(write) == writeBefore[k := write[k].state]
  {
  }
}
