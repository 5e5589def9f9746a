/** A forward-only, single-pass cursor over a random-access int reader.

    The iterator keeps a cursor `idx` (0 at construction) and a snapshot
    `numElems` of the reader's size taken once, at construction.  It makes
    no bounds check of its own: `NextInt` and `Current` read through to the
    reader at `idx`, and an out-of-range read fails with the reader's error.
    A failing `NextInt` leaves the cursor where it was, because the read
    raises before the cursor is incremented.
 */
module IntReaderIter {
  import opened Reader

  datatype Iter<Tag> = Iter(idx: int, numElems: int, reader: IntReader<Tag>)

  /** The invariant every iterator built by `New` keeps: the cursor lies in
      `[0, numElems]` and the snapshot equals the reader's size. */
  ghost predicate Valid<Tag>(it: Iter<Tag>)
  {
    0 <= it.idx <= it.numElems == Length(it.reader)
  }

  /** The elements a valid iterator has not yet handed out. */
  ghost function Remaining<Tag>(it: Iter<Tag>): (rest: seq<i32>)
    requires Valid(it)
  {
    it.reader.elems[it.idx..]
  }

  /** The constructor: cursor at 0, length snapshot taken from the reader. */
  function New<Tag>(r: IntReader<Tag>): (it: Iter<Tag>)
    ensures Valid(it)
    ensures it.idx == 0 && it.numElems == Length(r) && it.reader == r
    ensures Remaining(it) == r.elems
    ensures Size(it) == Length(r)
    ensures HasNext(it) <==> Length(r) > 0
    ensures GetDatatype(it) == r.tag
  {
    Iter(0, |r.elems|, r)
  }

  /** The wrapped reader's datatype tag, whatever the cursor state: no call
      on the iterator changes it. */
  function GetDatatype<Tag>(it: Iter<Tag>): (t: Tag)
    ensures forall c: Call :: Step(it, c).reader.tag == t
  {
    it.reader.tag
  }

  /** The number of elements still to come (not the original count). */
  function Size<Tag>(it: Iter<Tag>): (n: int)
    ensures Valid(it) ==> 0 <= n <= Length(it.reader)
    ensures Valid(it) ==> n == |Remaining(it)|
    ensures n > 0 <==> it.idx < it.numElems
  {
    it.numElems - it.idx
  }

  /** Whether the snapshot length has not yet been reached. */
  function HasNext<Tag>(it: Iter<Tag>): (b: bool)
    ensures b <==> Size(it) > 0
    ensures Valid(it) ==> (b <==> Remaining(it) != [])
  {
    it.idx < it.numElems
  }

  /** Read at the cursor, then advance it by one.  The reader raises when the
      cursor is out of its range; the cursor is then left unchanged. */
  function NextInt<Tag>(it: Iter<Tag>): (res: Result<(i32, Iter<Tag>)>)
    ensures Valid(it) ==> (res.Ok? <==> HasNext(it))
    ensures res.Ok? ==> 0 <= it.idx < Length(it.reader)
    ensures res.Ok? ==> res.value.0 == it.reader.elems[it.idx]
    ensures res.Ok? ==> res.value.1 == it.(idx := it.idx + 1)
    ensures res.Ok? ==> Size(res.value.1) == Size(it) - 1
    ensures res.Ok? && Valid(it) ==> Valid(res.value.1)
    ensures res.Ok? && Valid(it) ==> [res.value.0] + Remaining(res.value.1) == Remaining(it)
    ensures res.Err? ==> res.error == IndexOutOfRange(it.idx)
  {
    match Read(it.reader, it.idx)
    case Ok(v) => Ok((v, it.(idx := it.idx + 1)))
    case Err(e) => Err(e)
  }

  /** Read at the cursor without advancing: a peek at what `NextInt` would
      return.  After exhaustion the read index is `numElems`, out of range. */
  function Current<Tag>(it: Iter<Tag>): (res: Result<i32>)
    ensures res.Ok? <==> NextInt(it).Ok?
    ensures res.Ok? ==> res.value == NextInt(it).value.0
    ensures res.Err? ==> res.error == NextInt(it).error
    ensures Valid(it) && HasNext(it) ==> res == Ok(Remaining(it)[0])
    ensures Valid(it) && !HasNext(it) ==> res == Err(IndexOutOfRange(it.numElems))
  {
    Read(it.reader, it.idx)
  }

  /** `n` successive `NextInt` calls: the values they return, in order, and
      the iterator after them; or the error of the first call that fails. */
  function NextN<Tag>(it: Iter<Tag>, n: nat): (res: Result<(seq<i32>, Iter<Tag>)>)
    ensures res.Ok? ==> |res.value.0| == n
    ensures res.Ok? ==> res.value.1 == it.(idx := it.idx + n)
    decreases n
  {
    if n == 0 then Ok(([], it))
    else
      match NextInt(it)
      case Err(e) => Err(e)
      case Ok((v, next)) =>
        match NextN(next, n - 1)
        case Err(e) => Err(e)
        case Ok((vs, last)) => Ok(([v] + vs, last))
  }

  /** While `n` does not exceed the remaining count, `n` calls to `NextInt`
      yield the next `n` elements of the reader, in index order. */
  lemma {:induction false} NextNYieldsSlice<Tag>(it: Iter<Tag>, n: nat)
    requires Valid(it) && n <= Size(it)
    ensures NextN(it, n) == Ok((it.reader.elems[it.idx..it.idx + n], it.(idx := it.idx + n)))
    decreases n
  {
    if n == 0 {
      assert it.reader.elems[it.idx..it.idx] == [];
    } else {
      var next := it.(idx := it.idx + 1);
      assert NextInt(it) == Ok((it.reader.elems[it.idx], next));
      NextNYieldsSlice(next, n - 1);
      assert next.(idx := next.idx + (n - 1)) == it.(idx := it.idx + n);
      assert [it.reader.elems[it.idx]] + it.reader.elems[it.idx + 1..it.idx + n]
          == it.reader.elems[it.idx..it.idx + n];
    }
  }

  /** Asking for more than the remaining count fails, and the failing read is
      the one at index `numElems`, the first index past the snapshot. */
  lemma {:induction false} NextNPastEndFails<Tag>(it: Iter<Tag>, n: nat)
    requires Valid(it) && n > Size(it)
    ensures NextN(it, n) == Err(IndexOutOfRange(it.numElems))
    decreases n
  {
    if HasNext(it) {
      var next := it.(idx := it.idx + 1);
      assert NextInt(it) == Ok((it.reader.elems[it.idx], next));
      NextNPastEndFails(next, n - 1);
    } else {
      assert NextInt(it) == Err(IndexOutOfRange(it.numElems));
    }
  }

  /** A fresh iterator over a reader of size `n` yields `read(0) .. read(n-1)`
      in order with `n` calls, is then exhausted with nothing remaining, and
      one call more fails at index `n`. */
  lemma FreshIteratorVisitsAll<Tag>(r: IntReader<Tag>)
    ensures NextN(New(r), Length(r)).Ok?
    ensures NextN(New(r), Length(r)).value.0 == r.elems
    ensures !HasNext(NextN(New(r), Length(r)).value.1)
    ensures Size(NextN(New(r), Length(r)).value.1) == 0
    ensures NextN(New(r), Length(r) + 1) == Err(IndexOutOfRange(Length(r)))
  {
    NextNYieldsSlice(New(r), Length(r));
    assert r.elems[0..|r.elems|] == r.elems;
    NextNPastEndFails(New(r), Length(r) + 1);
  }

  /** The calls a client can make on an iterator. */
  datatype Call = GetDatatypeCall | SizeCall | HasNextCall | NextIntCall | CurrentCall

  /** The iterator after one call.  Only a successful `NextInt` moves the
      cursor; the queries and `Current` leave the state untouched. */
  function Step<Tag>(it: Iter<Tag>, c: Call): (s: Iter<Tag>)
    ensures c != NextIntCall ==> s == it
    ensures c == NextIntCall && NextInt(it).Ok? ==> s == NextInt(it).value.1
    ensures c == NextIntCall && NextInt(it).Err? ==> s == it
    ensures s.numElems == it.numElems && s.reader == it.reader
    ensures Valid(it) ==> Valid(s)
    ensures Valid(it) ==> (s != it <==> c == NextIntCall && HasNext(it))
  {
    match c
    case NextIntCall => (match NextInt(it) case Ok((_, next)) => next case Err(_) => it)
    case _ => it
  }

  /** The iterator after a sequence of calls. */
  function Run<Tag>(it: Iter<Tag>, cs: seq<Call>): (s: Iter<Tag>)
    decreases |cs|
  {
    if cs == [] then it else Run(Step(it, cs[0]), cs[1..])
  }

  /** The smaller of two integers. */
  function Min(a: int, b: int): (m: int)
  {
    if a < b then a else b
  }

  /** The number of `NextInt` calls in a call sequence. */
  function NextIntCalls(cs: seq<Call>): (k: nat)
    decreases |cs|
  {
    if cs == [] then 0 else (if cs[0] == NextIntCall then 1 else 0) + NextIntCalls(cs[1..])
  }

  /** Whatever the calls, the invariant holds throughout and the iterator is
      the start state with the cursor moved by exactly one per `NextInt`,
      until it stops at the snapshot. */
  lemma {:induction false} RunKeepsInvariant<Tag>(it: Iter<Tag>, cs: seq<Call>)
    requires Valid(it)
    ensures Valid(Run(it, cs))
    ensures Run(it, cs) == it.(idx := Min(it.idx + NextIntCalls(cs), it.numElems))
    decreases |cs|
  {
    if cs != [] {
      RunKeepsInvariant(Step(it, cs[0]), cs[1..]);
    }
  }

  /** Corollary: the cursor only moves forward, by at most one per `NextInt`,
      and the length snapshot, the reader and its tag never change (the
      snapshot is never re-taken). */
  lemma RunKeepsSnapshot<Tag>(it: Iter<Tag>, cs: seq<Call>)
    requires Valid(it)
    ensures it.idx <= Run(it, cs).idx <= it.idx + NextIntCalls(cs)
    ensures Run(it, cs).numElems == it.numElems
    ensures Run(it, cs).reader == it.reader
    ensures GetDatatype(Run(it, cs)) == GetDatatype(it)
  {
    RunKeepsInvariant(it, cs);
  }

  /** Calls other than `NextInt` change nothing.  Since the state is then
      the same, `Current` returns the same value however often it is called
      between them: peek idempotence is structural. */
  lemma {:induction false} QueriesChangeNothing<Tag>(it: Iter<Tag>, cs: seq<Call>)
    requires NextIntCalls(cs) == 0
    ensures Run(it, cs) == it
    decreases |cs|
  {
    if cs != [] {
      QueriesChangeNothing(it, cs[1..]);
    }
  }

  /** A client loop `while (hasNext()) nextInt()`: it collects exactly the
      remaining elements in index order and leaves the iterator exhausted. */
  method Drain<Tag>(it: Iter<Tag>) returns (vals: seq<i32>, last: Iter<Tag>)
    requires Valid(it)
    ensures vals == Remaining(it)
    ensures last == it.(idx := it.numElems)
    ensures !HasNext(last) && Size(last) == 0
  {
    vals := [];
    last := it;
    while HasNext(last)
      invariant Valid(last)
      invariant last == it.(idx := last.idx)
      invariant it.idx <= last.idx
      invariant vals == it.reader.elems[it.idx..last.idx]
      decreases Size(last)
    {
      var step := NextInt(last);
      vals := vals + [step.value.0];
      last := step.value.1;
    }
    assert it.reader.elems[it.idx..last.idx] == Remaining(it);
  }
}
