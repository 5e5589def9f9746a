/** The iterator as the mutable object it is in the program: a class with a
    mutable cursor field over an immutable reader, each method proved to
    behave as the corresponding function of `IntReaderIter`.
 */
module IntReaderIterObject {
  import opened Reader
  import IntReaderIter

  class IntReaderIterator<Tag> {
    var idx: int
    var numElems: int
    const reader: IntReader<Tag>

    /** The state of this object as a value of the functional model. */
    function Model(): (m: IntReaderIter.Iter<Tag>)
      reads this
    {
      IntReaderIter.Iter(idx, numElems, reader)
    }

    ghost predicate Valid()
      reads this
    {
      IntReaderIter.Valid(Model())
    }

    /** The constructor: cursor at 0, snapshot of the reader's size. */
    constructor Init(r: IntReader<Tag>)
      ensures Valid()
      ensures Model() == IntReaderIter.New(r)
      ensures idx == 0 && numElems == Length(r)
    {
      idx := 0;
      numElems := |r.elems|;
      reader := r;
    }

    method GetDatatype() returns (t: Tag)
      ensures t == reader.tag
      ensures t == IntReaderIter.GetDatatype(Model())
    {
      t := reader.tag;
    }

    method Size() returns (n: int)
      requires Valid()
      ensures n == IntReaderIter.Size(Model())
      ensures 0 <= n == Length(reader) - idx
    {
      n := numElems - idx;
    }

    method HasNext() returns (b: bool)
      requires Valid()
      ensures b == IntReaderIter.HasNext(Model())
      ensures b <==> idx < Length(reader)
    {
      b := idx < numElems;
    }

    /** Reads at the cursor and advances it; a failed read leaves the cursor. */
    method NextInt() returns (res: Result<i32>)
      requires Valid()
      modifies this
      ensures Valid()
      ensures numElems == old(numElems)
      ensures res.Ok? <==> old(idx) < numElems
      ensures res.Ok? ==> res.value == reader.elems[old(idx)] && idx == old(idx) + 1
      ensures res.Err? ==> res == Err(IndexOutOfRange(numElems)) && idx == old(idx)
      ensures IntReaderIter.NextInt(old(Model())).Ok? <==> res.Ok?
      ensures res.Ok? ==> IntReaderIter.NextInt(old(Model())) == Ok((res.value, Model()))
    {
      res := Read(reader, idx);
      if res.Ok? {
        idx := idx + 1;
      }
    }

    /** Reads at the cursor without moving it. */
    method Current() returns (res: Result<i32>)
      requires Valid()
      ensures res == IntReaderIter.Current(Model())
      ensures res.Ok? <==> idx < numElems
      ensures res.Ok? ==> res.value == reader.elems[idx]
    {
      res := Read(reader, idx);
    }
  }

  /** A concrete run over `[10, 20, 30]`: the first `current()` is 10,
      `nextInt()` yields 10, 20, 30, and then `hasNext()` is false, `size()`
      is 0 and one more `nextInt()` fails at index 3. */
  method Scenario<Tag>(tag: Tag) returns (first: Result<i32>, vals: seq<Result<i32>>, more: bool, left: int, past: Result<i32>)
    ensures first == Ok(10)
    ensures vals == [Ok(10), Ok(20), Ok(30)]
    ensures !more && left == 0
    ensures past == Err(IndexOutOfRange(3))
  {
    var it := new IntReaderIterator.Init(IntReader(tag, [10, 20, 30]));
    first := it.Current();
    var a := it.NextInt();
    var b := it.NextInt();
    var c := it.NextInt();
    vals := [a, b, c];
    more := it.HasNext();
    left := it.Size();
    past := it.NextInt();
  }
}
