# IntReaderIter — a verified model of tech.datatype's int reader iterator

tech.datatype lets generic code traverse a primitive sequence without boxing.
A random-access `IntReader` (a datatype tag, a size, `read(i)`) can be wrapped in an
`IntReaderIter`. This is a forward-only, single-pass cursor. At construction it
takes a snapshot `num_elems` of the reader's size and sets its cursor `idx` to 0.
Its operations are:
- `hasNext()` compares `idx` with that snapshot.
- `nextInt()` reads at `idx` and then advances.
- `current()` peeks at `idx`.
- `size()` reports the remaining count `num_elems - idx`.
- `getDatatype()` passes the reader's tag through.

The model has three modules:

- `Reader` (`reader.dfy`): the wrapped reader as an immutable value `IntReader(tag, elems)`.
  The elements are Java `int`s (`i32`). `Read` returns `Ok(elems[i])` for `0 <= i < |elems|`
  and `Err(IndexOutOfRange(i))` otherwise.
- `IntReaderIter` (`iter.dfy`): the iterator as a value `Iter(idx, numElems, reader)` with one pure
  function per Java method. It also has:
  - the invariant `Valid` (`0 <= idx <= numElems == |elems|`);
  - `NextN`, for `n` successive `nextInt()` calls;
  - a call-sequence semantics `Run`;
  - lemmas about all of these;
  - `Drain`, the client loop `while (hasNext()) nextInt()`.
- `IntReaderIterObject` (`iter_object.dfy`): the mutable class as the program has it. Each method
  is proved to agree with the functional model. It also holds the concrete `[10, 20, 30]` run.

The iterator makes no bounds check of its own: `nextInt()` does not check `hasNext()` itself.
`nextInt()` and `current()` call `reader.read(idx)`; under the reader's contract, after exhaustion
they fail with its out-of-range error at index `num_elems`. A failing `nextInt()` leaves `idx` unchanged, because the read raises before `++idx`.
The model keeps this error path (a `Result`) and does not turn it into a precondition. With `Valid`,
`nextInt()` succeeds exactly when `hasNext()` holds.

## Model

| member | source | states |
|---|---|---|
| IntReaderIter.New | java/tech/datatype/IntReaderIter.java:11-16 | the constructor sets the cursor to 0 and the snapshot to the reader's size, keeps the reader, and establishes `Valid`; the remaining elements are all of the reader's, `size()` equals the reader's size, `hasNext()` holds iff the reader is non-empty, and the tag is the reader's |
| IntReaderIter.GetDatatype | java/tech/datatype/IntReaderIter.java:17 | `getDatatype()` is the wrapped reader's tag, and no call on the iterator (`Step`) changes it, whatever the cursor state |
| IntReaderIter.Size | java/tech/datatype/IntReaderIter.java:18 | `size()` is the count of elements not yet handed out (never negative, at most the reader's size, under `Valid`), and it is positive exactly when the cursor is below the snapshot |
| IntReaderIter.HasNext | java/tech/datatype/IntReaderIter.java:19 | `hasNext()` holds exactly when `size() > 0`, i.e. exactly when some element remains |
| IntReaderIter.NextInt | java/tech/datatype/IntReaderIter.java:20-24 | under `Valid`, `nextInt()` succeeds iff `hasNext()`; it returns the element at the old cursor, advances the cursor by one and changes nothing else, drops `size()` by one, keeps `Valid`, and splits the remaining elements into the returned head and the new remainder; a failure is the reader's out-of-range error at the cursor |
| IntReaderIter.Current | java/tech/datatype/IntReaderIter.java:25-27 | `current()` succeeds exactly when `nextInt()` would, with the same value or the same error; it is the head of the remaining elements when one exists, and after exhaustion it fails out of range at index `num_elems` |
| IntReaderIter.Step | java/tech/datatype/IntReaderIter.java:17-27 | of the five calls only `nextInt()` changes state: the queries and `current()` leave the iterator as it was, a successful `nextInt()` moves to its successor and a failing one leaves the cursor; the snapshot and the reader never change, `Valid` is kept, and under `Valid` the state changes exactly when the call is `nextInt()` and `hasNext()` held |
| IntReaderIter.NextN | java/tech/datatype/IntReaderIter.java:20-24 | `n` successful `nextInt()` calls return exactly `n` values and leave the cursor `n` further on, with the snapshot and the reader unchanged |
| IntReaderIter.NextNYieldsSlice | java/tech/datatype/IntReaderIter.java:18-24 | while `n <= size()`, `n` calls to `nextInt()` return `read(idx) .. read(idx+n-1)` in index order |
| IntReaderIter.NextNPastEndFails | java/tech/datatype/IntReaderIter.java:19-24 | asking for more than `size()` elements fails, and the failing read is at index `num_elems` |
| IntReaderIter.FreshIteratorVisitsAll | java/tech/datatype/IntReaderIter.java:11-24 | a fresh iterator over a reader of size `n` yields all `n` elements in order with `n` calls, after which `hasNext()` is false and `size()` is 0; the `n+1`-th call fails at index `n` |
| IntReaderIter.RunKeepsInvariant | java/tech/datatype/IntReaderIter.java:13-27 | after any sequence of calls `Valid` still holds and the iterator is exactly the start state with the cursor moved forward by one per `nextInt()` call, stopping at the snapshot (`min(idx + #nextInt, num_elems)`) |
| IntReaderIter.RunKeepsSnapshot | java/tech/datatype/IntReaderIter.java:13-27 | over any call sequence the cursor only moves forward, by at most one per `nextInt()`, and the snapshot `num_elems`, the reader and `getDatatype()` stay as the constructor set them: the size is never re-queried |
| IntReaderIter.QueriesChangeNothing | java/tech/datatype/IntReaderIter.java:17-27 | a sequence of calls without `nextInt()` leaves the iterator exactly as it was, so repeated `current()` calls between them see the same state and return the same value |
| IntReaderIter.Drain | java/tech/datatype/IntReaderIter.java:19-24 | the loop `while (hasNext()) nextInt()` collects exactly the remaining elements in order and leaves the iterator exhausted with `size() == 0` |
| IntReaderIterObject.IntReaderIterator.Init | java/tech/datatype/IntReaderIter.java:11-16 | the constructor sets `idx` to 0, `numElems` to the reader's size and keeps the reader; the new object satisfies `Valid` and is the functional `New(r)` |
| IntReaderIterObject.IntReaderIterator.GetDatatype | java/tech/datatype/IntReaderIter.java:17 | `getDatatype()` returns the wrapped reader's tag whatever the cursor state |
| IntReaderIterObject.IntReaderIterator.Size | java/tech/datatype/IntReaderIter.java:18 | the method agrees with the functional `size()` and returns the reader's size minus the cursor, never negative |
| IntReaderIterObject.IntReaderIterator.HasNext | java/tech/datatype/IntReaderIter.java:19 | the method agrees with the functional `hasNext()`: the cursor is below the reader's size |
| IntReaderIterObject.IntReaderIterator.NextInt | java/tech/datatype/IntReaderIter.java:20-24 | the mutating method returns the element at the old cursor and increments the field, or fails at `num_elems` and leaves it, keeping `Valid` and the snapshot, as the functional `nextInt()` does |
| IntReaderIterObject.IntReaderIterator.Current | java/tech/datatype/IntReaderIter.java:25-27 | the method agrees with the functional `current()`: the element at the cursor while one remains, otherwise an out-of-range failure |
| IntReaderIterObject.Scenario | java/tech/datatype/IntReaderIter.java:11-27 | over `[10, 20, 30]`, `current()` is first 10, `nextInt()` yields 10, 20, 30, then `hasNext()` is false, `size()` is 0, and one more `nextInt()` fails at index 3 |

## Left out

- `MutableRemove` (`remove`, `removeRange`) only declares two method signatures with no behaviour, so there is nothing to model against.
- The `IntReader`, `IntIter` and `IOBase` interfaces are not part of this model. The reader is represented by its tag and a fixed element sequence. `read(i)` outside `[0, size())` is taken to raise an out-of-range error, as the reader's contract requires; the source does not show this.
- The `clojure.lang.Keyword` tag type is host-runtime interop. It is an opaque type parameter `Tag` here.
- A backing structure shrinking while an iteration is in progress is not modelled. The reader's contents are fixed for the iterator's lifetime. The program keeps a stale length snapshot and has no version check, so that case is undefined behaviour.
- Java `int` overflow of `++idx` is not modelled; the cursor is an unbounded `int`. The increment happens only after a successful read, so `idx < size() <= Integer.MAX_VALUE` and the increment cannot wrap.
