/**
 The double-buffered request queue: producers fill one buffer while the batch handed to the
 consumer lives in the other one, and the roles are exchanged by `Get`.

 `Box` is the queue as a value; the class is the code on two arrays and is proved to behave as it.
 */
module SwapQueue {
  import opened Common

  datatype PutResult = PutOk | PutDisposed | PutFull

  datatype GetResult<T> = GetDisposed | GetInUse | GetNothing | GetBatch(data: seq<T>)

  /** `lent` is the batch that was handed out and not released yet. */
  datatype Box<T> = Box(size: nat, pending: seq<T>, lent: Option<seq<T>>, stopped: bool)

  function EmptyBox<T>(size: nat): Box<T> { Box(size, [], None, false) }

  function BoxPut<T>(b: Box<T>, x: T): (Box<T>, PutResult) {
    if b.stopped then (b, PutDisposed)
    else if |b.pending| == b.size then (b, PutFull)
    else (b.(pending := b.pending + [x]), PutOk)
  }

  function BoxGet<T>(b: Box<T>): (Box<T>, GetResult<T>) {
    if b.stopped then (b, GetDisposed)
    else if b.lent.Some? then (b, GetInUse)
    else if b.pending == [] then (b, GetNothing)
    else (b.(pending := [], lent := Some(b.pending)), GetBatch(b.pending))
  }

  function BoxRelease<T>(b: Box<T>): Box<T> { b.(lent := None) }

  datatype Op<T> = Put(x: T) | Get | Release

  function Apply<T>(b: Box<T>, op: Op<T>): Box<T> {
    match op
    case Put(x) => BoxPut(b, x).0
    case Get => BoxGet(b).0
    case Release => BoxRelease(b)
  }

  function ApplyAll<T>(b: Box<T>, ops: seq<Op<T>>): Box<T>
    decreases |ops|
  {
    if ops == [] then b else ApplyAll(Apply(b, ops[0]), ops[1..])
  }

  function AcceptedBy<T>(b: Box<T>, op: Op<T>): seq<T> {
    if op.Put? && BoxPut(b, op.x).1 == PutOk then [op.x] else []
  }

  function HandedOutBy<T>(b: Box<T>, op: Op<T>): seq<T> {
    if op.Get? && BoxGet(b).1.GetBatch? then BoxGet(b).1.data else []
  }

  /** The elements accepted by the puts among `ops`, in order. */
  function Accepted<T>(b: Box<T>, ops: seq<Op<T>>): seq<T>
    decreases |ops|
  {
    if ops == [] then [] else AcceptedBy(b, ops[0]) + Accepted(Apply(b, ops[0]), ops[1..])
  }

  /** The batches handed out by the gets among `ops`, one after the other. */
  function HandedOut<T>(b: Box<T>, ops: seq<Op<T>>): seq<T>
    decreases |ops|
  {
    if ops == [] then [] else HandedOutBy(b, ops[0]) + HandedOut(Apply(b, ops[0]), ops[1..])
  }

  lemma FifoStep<T>(b: Box<T>, op: Op<T>)
    ensures b.pending + AcceptedBy(b, op) == HandedOutBy(b, op) + Apply(b, op).pending
  {}

  lemma Regroup<T>(p: seq<T>, a: seq<T>, rest: seq<T>, h: seq<T>, q: seq<T>, out: seq<T>, last: seq<T>)
    requires p + a == h + q && q + rest == out + last
    ensures p + (a + rest) == (h + out) + last
  {
    assert p + (a + rest) == (p + a) + rest;
    assert (h + q) + rest == h + (q + rest);
    assert h + (out + last) == (h + out) + last;
  }

  /** A first-in first-out queue: what was waiting and what was accepted is, in order, what was handed
      out followed by what still waits. */
  lemma {:induction false} Fifo<T>(b: Box<T>, ops: seq<Op<T>>)
    ensures b.pending + Accepted(b, ops) == HandedOut(b, ops) + ApplyAll(b, ops).pending
    decreases |ops|
  {
    if ops == [] {
    } else {
      var c := Apply(b, ops[0]);
      FifoStep(b, ops[0]);
      Fifo(c, ops[1..]);
      Regroup(b.pending, AcceptedBy(b, ops[0]), Accepted(c, ops[1..]),
              HandedOutBy(b, ops[0]), c.pending, HandedOut(c, ops[1..]), ApplyAll(c, ops[1..]).pending);
    }
  }

  /** `n` puts in a row. */
  function Puts<T>(b: Box<T>, xs: seq<T>): Box<T>
    decreases |xs|
  {
    if xs == [] then b else Puts(BoxPut(b, xs[0]).0, xs[1..])
  }

  /** An empty queue takes as many elements as its size, and then no more. */
  lemma {:induction false} TakesItsSize<T>(b: Box<T>, xs: seq<T>, x: T)
    requires !b.stopped && |b.pending| + |xs| <= b.size
    ensures Puts(b, xs) == b.(pending := b.pending + xs)
    ensures BoxPut(Puts(b, xs), x).1 == if |b.pending| + |xs| < b.size then PutOk else PutFull
    decreases |xs|
  {
    if xs == [] {
      assert b.pending + xs == b.pending;
    } else {
      var c := b.(pending := b.pending + [xs[0]]);
      TakesItsSize(c, xs[1..], x);
      assert b.pending + [xs[0]] + xs[1..] == b.pending + xs;
    }
  }

  class BufferSlice<T(0)> {
    const data: array?<T>
    const len: nat
    var released: bool

    constructor (data: array?<T>, len: nat)
      requires data != null ==> len <= data.Length
      requires data == null ==> len == 0
      ensures this.data == data && this.len == len && !released
    {
      this.data, this.len, released := data, len, false;
    }

    ghost predicate Sound()
    {
      if data == null then len == 0 else len <= data.Length
    }

    ghost function Data(): seq<T>
      requires Sound()
      reads data
    {
      if data == null then [] else data[..len]
    }
  }

  class SwapBufferQueue<T(0)> {
    const bufferA: array<T>
    const bufferB: array<T>
    const size: nat
    var writeBuf: array<T>
    var tail: nat
    var isTargetA: bool
    var stopped: bool
    var bufferInUse: bool
    /** The slice that was handed out last. */
    ghost var slice: BufferSlice?<T>
    /** What that slice held when it was handed out. */
    ghost var batch: seq<T>

    ghost predicate Valid()
      reads this, slice, bufferA, bufferB
    {
      && bufferA != bufferB && bufferA.Length == size && bufferB.Length == size
      && tail <= size
      && writeBuf == (if isTargetA then bufferA else bufferB)
      && (bufferInUse ==>
            && slice != null && slice.Sound() && !slice.released
            && slice.data == (if isTargetA then bufferB else bufferA)
            && slice.data[..slice.len] == batch)
    }

    ghost function View(): Box<T>
      requires Valid()
      reads this, slice, bufferA, bufferB
    {
      Box(size, writeBuf[..tail], if bufferInUse then Some(batch) else None, stopped)
    }

    constructor (size: nat)
      ensures Valid() && fresh(bufferA) && fresh(bufferB)
      ensures View() == EmptyBox(size)
    {
      this.size := size;
      var a := new T[size];
      bufferA := a;
      bufferB := new T[size];
      writeBuf := a;
      tail, isTargetA, stopped, bufferInUse := 0, true, false, false;
      slice, batch := null, [];
    }

    method Dispose()
      requires Valid()
      modifies this`stopped
      ensures Valid() && View() == old(View()).(stopped := true)
    {
      stopped := true;
    }

    /** Writes only the buffer that is not lent out, so the outstanding batch keeps its content. */
    method Put(element: T) returns (r: PutResult)
      requires Valid()
      modifies this`tail, writeBuf
      ensures Valid()
      ensures (View(), r) == BoxPut(old(View()), element)
      ensures r == PutDisposed <==> stopped
      ensures r == PutFull <==> !stopped && old(tail) == size
      ensures r == PutOk <==> !stopped && old(tail) < size
      ensures writeBuf[..tail] == if r == PutOk then old(writeBuf[..tail]) + [element] else old(writeBuf[..tail])
      ensures bufferInUse ==> slice.Sound() && slice.Data() == old(slice.Data())
    {
      if stopped { return PutDisposed; }
      if tail == size { return PutFull; }
      writeBuf[tail] := element;
      tail := tail + 1;
      assert writeBuf[..tail] == old(writeBuf[..tail]) + [element];
      return PutOk;
    }

    method Get() returns (r: GetResult<T>, bs: BufferSlice<T>)
      requires Valid()
      modifies this
      ensures Valid()
      ensures (View(), r) == BoxGet(old(View()))
      ensures r == GetDisposed <==> stopped
      ensures r == GetInUse <==> !stopped && old(bufferInUse)
      ensures r == GetNothing <==> !stopped && !old(bufferInUse) && old(tail) == 0
      ensures r.GetBatch? ==> r.data == old(writeBuf[..tail]) && tail == 0
      ensures !r.GetBatch? ==> writeBuf[..tail] == old(writeBuf[..tail])
      ensures fresh(bs) && bs.Sound() && bs.Data() == if r.GetBatch? then r.data else []
      ensures r.GetBatch? ==> bufferInUse && slice == bs
      ensures !r.GetBatch? ==> slice == old(slice)
    {
      if stopped {
        bs := new BufferSlice<T>(null, 0);
        return GetDisposed, bs;
      }
      if bufferInUse {
        bs := new BufferSlice<T>(null, 0);
        return GetInUse, bs;
      }
      if tail == 0 {
        bs := new BufferSlice<T>(null, 0);
        return GetNothing, bs;
      }
      bufferInUse := true;
      ghost var waiting := writeBuf[..tail];
      // swapBuffer
      if isTargetA {
        bs := new BufferSlice<T>(bufferA, tail);
        writeBuf := bufferB;
      } else {
        bs := new BufferSlice<T>(bufferB, tail);
        writeBuf := bufferA;
      }
      isTargetA := !isTargetA;
      tail := 0;
      slice, batch := bs, waiting;
      return GetBatch(bs.data[..bs.len]), bs;
    }

    /** Only the first release of the outstanding slice frees the buffer; a slice without data frees nothing. */
    method Release(bs: BufferSlice<T>)
      requires Valid()
      requires bs.data == null || bs == slice || bs.released
      modifies this`bufferInUse, bs`released
      ensures Valid()
      ensures bs.released <==> old(bs.released) || bs.data != null
      ensures View() == if old(bs.released) || bs.data == null then old(View()) else BoxRelease(old(View()))
    {
      if bs.data != null {
        if !bs.released {
          bs.released := true;
          bufferInUse := false;
        }
      }
    }
  }
}
