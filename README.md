# concurrentstack in Dafny: single-threaded step semantics

`concurrentstack` is a bounded LIFO stack meant to be shared between threads.
It consists of a data vector, an atomic reservation counter `reserved`, and two arrays of one-bit
permission flags, `safe_to_read` and `safe_to_write`, with one flag of each per slot. A `push` claims slot
`reserved` by fetch-and-add. It then waits for the slot's write flag, stores the value, and raises
the read flag. A `pop` reads the counter and probes the top slot's read flag. It then moves the
counter down by compare-and-swap, reads the cell, and raises the slot's write flag again.

This project models what each of these operations does when it runs alone: every atomic operation
is an ordinary update of the shared state. It has four modules:

- `Locks` (`lock.dfy`): the permission flag `Lock` is a class with one mutable `state` bit. Each
  of its operations is a method on top of `CompareExchange`. A spin loop (`set_true`, `set_false`,
  `wait_for_true`) can only finish, with nobody else running, when the bit already has the
  required value. That value becomes the method's precondition, and the first swap succeeds.
  `is_true` keeps the source's polarity: it is the `is_err()` of a true→false swap. It is
  therefore true exactly when the flag was *already false*, and it always leaves the flag false.
- `StackSpec` (`stack_spec.dfy`): the shared state as a value (`StackState`). It holds the steps
  `Initial`, `PushStep`, `PopStep`, and `RetryStep` (a pass of the `pop` loop whose `is_true`
  clears a raised read flag). It also holds the handshake invariant `Handshake`: every claimed
  slot is readable and not writable, and every free slot is writable and not readable. The LIFO
  lemmas are proved about repeated steps here.
- `ConcurrentStack` (`stack.dfy`): the class `Stack`. Its fields are a data `array`, the
  counter, and two fixed sequences of distinct `Lock` objects. `Model()` reads the whole shared
  state as a `StackState`, and each method's postcondition ties the new state to the
  corresponding step of `StackSpec`. The constructor fills the arrays with a `for` loop, as
  `Stack::new` does. `Pop` is the source's retry loop. The body of that loop (load, probe,
  counter CAS, read, release) is the method `PopRound`, and `Pop` loops over it until it
  finishes. `Pop` also returns a ghost count of its passes. Because of the `is_true` polarity,
  a pop of a non-empty stack under the handshake goes round exactly twice: the first pass finds
  the read flag up, clears it and retries; the second pass finds it down and proceeds.
- `StackTests` (`stack_tests.dfy`): the source's single-threaded test `test_stack`, restated
  as a method on the class with its expectations as the postcondition.

The element type is `int`, and `T::default()` is `DEFAULT = 0`. The capacity is a constructor
parameter, and `CAPACITY = 100000` is the value the source compiles in.

Despite its name, `is_true` returns true when the flag was already down. So `pop` goes round
again when its swap obtains the read flag, and goes on only when the flag was already down;
this model follows the code.

## Model

| member | source | states |
|---|---|---|
| Locks.Lock.constructor | src/lib.rs:18-22 | the new flag holds the given bit |
| Locks.Lock.CompareExchange | src/lib.rs:25-57 | the swap that all four flag operations use (lines 25-28, 36-39, 47-49, 54-57): succeeds exactly when the bit equals `current`; the bit then becomes `desired`, and otherwise stays as it was |
| Locks.Lock.SetTrue | src/lib.rs:24-32 | completes only from false (precondition) and leaves the flag true |
| Locks.Lock.SetFalse | src/lib.rs:35-43 | completes only from true and leaves the flag false |
| Locks.Lock.IsTrue | src/lib.rs:46-50 | returns the negation of the old bit (false exactly when the flag was up) and always leaves the flag false, so it never raises a flag |
| Locks.Lock.WaitForTrue | src/lib.rs:53-61 | completes only from true and leaves the flag false (consumes it) |
| StackSpec.Initial | src/lib.rs:82-98 | `reserved = 0`; every cell is the default, every read flag false, every write flag true; all three arrays have the capacity's length; the handshake holds and the contents are empty |
| StackSpec.PushStep | src/lib.rs:100-116 | stores `v` at the old `reserved` and adds 1 to it; that slot becomes readable and not writable; every other cell and flag is unchanged; the contents grow by `v` at the top; the handshake is preserved |
| StackSpec.PopStep | src/lib.rs:118-166 | on `reserved = 0`: `None` with nothing changed; otherwise `Some` of the top value, `reserved` less 1, that slot not readable and writable, the contents lose their top; the cells are never changed (the clearing is commented out); every other flag is unchanged; the handshake is preserved |
| StackSpec.RetryStep | src/lib.rs:127-135 | a pass that finds the top read flag up only clears that flag (counter, cells and write flags unchanged); afterwards the flag is down, and the `pop` that follows does exactly what it would have done without the retry |
| StackSpec.HandshakeEnables | src/lib.rs:102-148 | the flags `push` needs (lines 107, 113) and those `pop` probes and raises (lines 127, 148): under the handshake a pop is always enabled, a push is enabled exactly when there is room, and the top slot's read flag is up exactly when the stack is non-empty (so a pop goes round twice) |
| StackSpec.PushAll | src/lib.rs:178-180 | pushes in sequence keep the handshake, add `|vs|` to the counter, and append `vs` to the contents |
| StackSpec.PopMany | src/lib.rs:181-184 | pops in sequence keep the handshake and give one result per call |
| StackSpec.PopManyResults | src/lib.rs:118-156 | the `i`-th of `k` consecutive pops returns the `i`-th cell from the top while there is one and `None` after that; the counter drops by `k` or to zero; the cells stay as they were |
| StackSpec.PopAllThenNone | src/lib.rs:181-184 | popping a stack that holds exactly `vs` once more than `|vs|` times returns `vs` last-first, then `None`, and empties it |
| StackSpec.Lifo | src/lib.rs:176-185 | `k` pushes onto a new stack followed by `k + 1` pops return the values in reverse order, then `None` |
| StackSpec.PushThreePopFour | src/lib.rs:176-185 | `push(1), push(2), push(3)` then four pops give `Some(3), Some(2), Some(1), None` |
| ConcurrentStack.Stack.constructor | src/lib.rs:82-98 | the built stack's state is exactly `Initial(capacity)`, with fresh cells and fresh, distinct flags |
| ConcurrentStack.Stack.Push | src/lib.rs:100-116 | requires room and, for the claimed slot, the write flag up and the read flag down; the new state is `PushStep` of the old one |
| ConcurrentStack.Stack.GetAndClean | src/lib.rs:158-166 | returns the cell's value and changes nothing |
| ConcurrentStack.Stack.PopRound | src/lib.rs:122-154 | one pass of the loop body: it retries exactly when the top read flag was up, and the new state is then `RetryStep` of the old; otherwise it finishes with the state and result of `PopStep` |
| ConcurrentStack.Stack.Pop | src/lib.rs:118-156 | the new state and the result are those of `PopStep` of the old state; the loop runs twice when the top read flag was up and once otherwise |
| StackTests.SequentialPushPop | src/lib.rs:176-185 | on the stack object: after pushing 1, 2 and 3 the pops return `Some(3)`, `Some(2)`, `Some(1)` and `None` |

## Left out

- Threads, interleavings, memory ordering (`Ordering::SeqCst`) and `thread::yield_now`. Every
  atomic operation is a plain update. The concurrent properties the stack exists for need a
  concurrency model and are not stated: no value lost or duplicated (what
  `test_stack_threaded_many` exercises), no pop of a slot taken by another pop, no false empty,
  termination under contention.
- Locks.Lock.SetTrue, Locks.Lock.SetFalse, Locks.Lock.WaitForTrue: the retry loops are not
  modelled. Alone, such a loop either succeeds on its first swap or spins forever. The model
  keeps the first case as a precondition and does not model divergence (livelock).
- ConcurrentStack.Stack.PopRound: the lost-race branch of the counter compare-and-swap (the
  `set_false` at src/lib.rs:153) cannot be reached with a single caller. The model proves it
  unreachable rather than modelling it.
- ConcurrentStack.Stack.Push: a push past the capacity is excluded by its precondition. The
  source bumps the counter and then indexes out of bounds, which panics.
- ConcurrentStack.Stack.Pop: the retry loop's body is the separate method `PopRound`. The
  source writes it inline; the passes and their effects are the same.
- The element type is `int` rather than a generic `T: Copy + Default`.
- `UnsafeCell` aliasing, `unsafe impl Sync` (src/lib.rs:169) and the `Debug` formatter for
  `Lock` (src/lib.rs:64-72) are Rust plumbing and output formatting.
- The threaded tests (src/lib.rs:187-231) spawn threads. `test_stack_threaded` joins its pushing
  thread before popping, so its sequence of operations is that of `test_stack`.
