/** The random-access int reader that an iterator wraps.

    The reader's interface is not part of this model; it is represented by
    its observable contents: a datatype tag that is passed through unchanged
    and a fixed sequence of 32-bit elements.  `read(i)` succeeds exactly when
    `0 <= i < size()` and fails with an out-of-range error otherwise.
 */
module Reader {

  /** Java's `int`: the element type of an int reader. */
  newtype i32 = x: int | -0x8000_0000 <= x < 0x8000_0000

  /** The failure a read outside the reader's range raises. */
  datatype ReadError = IndexOutOfRange(index: int)

  /** Either a value or the error that the underlying reader raised. */
  datatype Result<T> = Ok(value: T) | Err(error: ReadError)

  /** A reader over a snapshot of its backing storage.  `Tag` is the opaque
      datatype keyword of the host runtime. */
  datatype IntReader<Tag> = IntReader(tag: Tag, elems: seq<i32>)

  /** The reader's element count, its `size()`. */
  function Length<Tag>(r: IntReader<Tag>): (n: nat)
  {
    |r.elems|
  }

  /** Indexed read: the element at `i`, or an out-of-range error naming `i`. */
  function Read<Tag>(r: IntReader<Tag>, i: int): (res: Result<i32>)
  {
    if 0 <= i < |r.elems| then Ok(r.elems[i]) else Err(IndexOutOfRange(i))
  }
}
