/** utils/queue.c: a ring buffer of fixed-size records in a byte array is a bounded FIFO. */
module Queue {
  import opened Arithmetic
  import opened Types
  import opened MemUtils

  /** The ring on values: one slot per record, two indices and the last operation. */
  datatype Ring<T> = Ring(slots: seq<T>, put: nat, get: nat, lastPut: bool) {

    ghost predicate Valid() {
      put < |slots| && get < |slots|
    }

    predicate Full() {
      get == put && lastPut
    }

    predicate Empty() {
      get == put && !lastPut
    }

    function Count(): nat
      requires Valid()
    {
      if put > get then put - get else if put < get then put - get + |slots| else if lastPut then |slots| else 0
    }

    function Around(k: nat): (r: nat)
      requires |slots| > 0 && k < 2 * |slots|
      ensures r < |slots|
    {
      if k < |slots| then k else k - |slots|
    }

    /** The records, oldest first. */
    ghost function Items(): (s: seq<T>)
      requires Valid()
      ensures |s| == Count() <= |slots|
    {
      seq(Count(), i requires 0 <= i < Count() => slots[Around(get + i)])
    }

    function Next(k: nat): nat
      requires |slots| > 0
    {
      (k + 1) % |slots|
    }

    ghost function Put(x: T): Ring<T>
      requires Valid()
    {
      if Full() then this else Ring(slots[put := x], Next(put), get, true)
    }

    ghost function Get(): (Ring<T>, Option<T>)
      requires Valid()
    {
      if Empty() then (this, None) else (Ring(slots, put, Next(get), false), Some(slots[get]))
    }

    /** The flag tells full from empty when the indices coincide: exactly then is every slot, or none, in use. */
    lemma FlagSeparatesFullFromEmpty()
      requires Valid()
      ensures Full() <==> |Items()| == |slots|
      ensures Empty() <==> Items() == []
    {
    }

    lemma PutAppends(x: T)
      requires Valid()
      ensures Put(x).Valid() && |Put(x).slots| == |slots|
      ensures Put(x).Items() == if |Items()| < |slots| then Items() + [x] else Items()
    {
      ModNext(put, |slots|);
      DivModIs(put, |slots|, 0, put);
      if !Full() {
        forall i | 0 <= i < Count() + 1
          ensures Put(x).Items()[i] == (Items() + [x])[i]
        {
          assert i < Count() ==> Around(get + i) != put;
        }
      }
    }

    lemma GetTakesOldest()
      requires Valid()
      ensures Get().0.Valid() && |Get().0.slots| == |slots|
      ensures Get().1 == if Items() == [] then None else Some(Items()[0])
      ensures Get().0.Items() == if Items() == [] then [] else Items()[1..]
    {
      ModNext(get, |slots|);
      DivModIs(get, |slots|, 0, get);
      if !Empty() {
        var r := Get().0;
        assert r.Count() == Count() - 1;
        forall i | 0 <= i < Count() - 1
          ensures r.Items()[i] == Items()[1..][i]
        {
          assert r.Around(r.get + i) == Around(get + i + 1);
        }
      }
    }
  }

  // ----- all runs -----

  datatype Op<T> = DoPut(x: T) | DoGet

  /** What a run of the ring hands out, and the ring it ends in. */
  ghost function RunRing<T>(r: Ring<T>, ops: seq<Op<T>>): (Ring<T>, seq<T>)
    requires r.Valid()
    ensures RunRing(r, ops).0.Valid()
    decreases |ops|
  {
    if ops == [] then (r, []) else
    match ops[0]
    case DoPut(x) => (r.PutAppends(x); RunRing(r.Put(x), ops[1..]))
    case DoGet =>
      r.GetTakesOldest();
      var (next, out) := r.Get();
      var rest := RunRing(next, ops[1..]);
      (rest.0, if out.Some? then [out.value] + rest.1 else rest.1)
  }

  /** The same run of a FIFO that refuses a record when it holds `max`. */
  ghost function RunFifo<T>(items: seq<T>, max: nat, ops: seq<Op<T>>): (seq<T>, seq<T>)
    decreases |ops|
  {
    if ops == [] then (items, []) else
    match ops[0]
    case DoPut(x) => RunFifo(if |items| < max then items + [x] else items, max, ops[1..])
    case DoGet =>
      if items == [] then RunFifo(items, max, ops[1..])
      else var rest := RunFifo(items[1..], max, ops[1..]); (rest.0, [items[0]] + rest.1)
  }

  /** Over every run the ring hands out what the FIFO hands out, and holds what it holds. */
  lemma {:induction false} RingIsFifo<T>(r: Ring<T>, ops: seq<Op<T>>)
    requires r.Valid()
    ensures RunRing(r, ops).0.Items() == RunFifo(r.Items(), |r.slots|, ops).0
    ensures RunRing(r, ops).1 == RunFifo(r.Items(), |r.slots|, ops).1
    decreases |ops|
  {
    if ops != [] {
      match ops[0]
      case DoPut(x) =>
        r.PutAppends(x);
        RingIsFifo(r.Put(x), ops[1..]);
      case DoGet =>
        r.GetTakesOldest();
        RingIsFifo(r.Get().0, ops[1..]);
    }
  }

  /** Records come out unmodified and in order: what went into a FIFO, as far as it was accepted, is what
      came out followed by what is still inside. */
  ghost function Accepted<T>(items: seq<T>, max: nat, ops: seq<Op<T>>): seq<T>
    decreases |ops|
  {
    if ops == [] then [] else
    match ops[0]
    case DoPut(x) =>
      if |items| < max then [x] + Accepted(items + [x], max, ops[1..]) else Accepted(items, max, ops[1..])
    case DoGet => Accepted(if items == [] then [] else items[1..], max, ops[1..])
  }

  lemma {:induction false} NothingIsLost<T>(items: seq<T>, max: nat, ops: seq<Op<T>>)
    ensures items + Accepted(items, max, ops) == RunFifo(items, max, ops).1 + RunFifo(items, max, ops).0
    decreases |ops|
  {
    if ops != [] {
      match ops[0]
      case DoPut(x) =>
        if |items| < max {
          NothingIsLost(items + [x], max, ops[1..]);
          assert items + ([x] + Accepted(items + [x], max, ops[1..]))
              == items + [x] + Accepted(items + [x], max, ops[1..]);
        } else {
          NothingIsLost(items, max, ops[1..]);
        }
      case DoGet =>
        if items == [] {
          NothingIsLost(items, max, ops[1..]);
        } else {
          NothingIsLost(items[1..], max, ops[1..]);
          assert items == [items[0]] + items[1..];
          var rest := RunFifo(items[1..], max, ops[1..]);
          assert [items[0]] + (rest.1 + rest.0) == [items[0]] + rest.1 + rest.0;
        }
    }
  }

  // ----- bytes -----

  lemma SlotInside(size: nat, count: nat, k: nat)
    requires k < count
    ensures 0 <= size * k <= size * k + size <= size * count
  {
    MulMono(k + 1, count, size);
    MulSum(k, 1, size);
  }

  ghost function Slot(mem: seq<byte>, size: nat, count: nat, k: nat): (r: seq<byte>)
    requires size * count <= |mem| && k < count
    ensures |r| == size
  {
    SlotInside(size, count, k);
    mem[size * k..size * k + size]
  }

  ghost function Slots(mem: seq<byte>, size: nat, count: nat): (r: seq<seq<byte>>)
    requires size * count <= |mem|
    ensures |r| == count
  {
    seq(count, k requires 0 <= k < count => Slot(mem, size, count, k))
  }

  lemma SlotWritten(mem: seq<byte>, size: nat, count: nat, at: nat, data: seq<byte>, r: seq<byte>)
    requires size * count <= |mem| && at < count && |data| == size && Overwritten(mem, size * at, data, r)
    ensures |r| == |mem| && Slots(r, size, count) == Slots(mem, size, count)[at := data]
  {
    forall k | 0 <= k < count
      ensures Slot(r, size, count, k) == if k == at then data else Slot(mem, size, count, k)
    {
      SlotInside(size, count, k);
      SlotInside(size, count, at);
      if k < at {
        SlotInside(size, at, k);
      } else if at < k {
        SlotInside(size, k, at);
      }
    }
  }

  // ----- the code -----

  const QUEUE_LAST_PUT: byte := 1
  const QUEUE_LAST_GET: byte := 0

  class Queue {
    const dataSize: nat
    const maxCount: nat
    const buffer: array<byte>
    var put: nat
    var get: nat
    var lastOp: byte

    ghost predicate Valid()
      reads this
    {
      && dataSize * maxCount <= buffer.Length
      && put < maxCount && get < maxCount
      && (lastOp == QUEUE_LAST_PUT || lastOp == QUEUE_LAST_GET)
    }

    ghost function Value(): (r: Ring<seq<byte>>)
      requires Valid()
      reads this, buffer
      ensures r.Valid()
    {
      Ring(Slots(buffer[..], dataSize, maxCount), put, get, lastOp == QUEUE_LAST_PUT)
    }

    /** init_queue. */
    constructor (buffer: array<byte>, maxCount: nat, dataSize: nat)
      requires maxCount > 0 && dataSize * maxCount <= buffer.Length
      ensures Valid() && this.buffer == buffer && this.maxCount == maxCount && this.dataSize == dataSize
      ensures Value().Items() == []
    {
      this.buffer := buffer;
      this.maxCount := maxCount;
      this.dataSize := dataSize;
      put := 0;
      get := 0;
      lastOp := QUEUE_LAST_GET;
    }

    /** put_queue. */
    method Put(data: array<byte>) returns (ok: bool)
      requires Valid() && data.Length >= dataSize && data != buffer
      modifies this`put, this`lastOp, buffer
      ensures Valid() && Value() == old(Value()).Put(data[..dataSize])
      ensures ok <==> |old(Value().Items())| < maxCount
      ensures Value().Items() == if ok then old(Value().Items()) + [data[..dataSize]] else old(Value().Items())
    {
      hide Slots;
      ghost var mem := buffer[..];
      Value().PutAppends(data[..dataSize]);
      Value().FlagSeparatesFullFromEmpty();
      if get == put && lastOp == QUEUE_LAST_PUT {
        return false;
      }
      SlotInside(dataSize, maxCount, put);
      Memcpy(buffer, dataSize * put, data[..dataSize]);
      SlotWritten(mem, dataSize, maxCount, put, data[..dataSize], buffer[..]);
      put := (put + 1) % maxCount;
      lastOp := QUEUE_LAST_PUT;
      ok := true;
    }

    /** get_queue. */
    method Get(data: array<byte>) returns (ok: bool)
      requires Valid() && data.Length >= dataSize && data != buffer
      modifies this`get, this`lastOp, data
      ensures Valid() && Value() == old(Value()).Get().0
      ensures ok <==> old(Value().Items()) != []
      ensures ok ==> data[..dataSize] == old(Value().Items())[0] && Value().Items() == old(Value().Items())[1..]
      ensures !ok ==> data[..] == old(data[..]) && Value().Items() == []
      ensures data[dataSize..] == old(data[dataSize..])
    {
      hide Overwritten, Slots;
      ghost var r := Value();
      r.GetTakesOldest();
      r.FlagSeparatesFullFromEmpty();
      if get == put && lastOp == QUEUE_LAST_GET {
        return false;
      }
      SlotInside(dataSize, maxCount, get);
      SlotRead(buffer[..], dataSize, maxCount, get);
      ghost var was := data[..];
      Memcpy(data, 0, buffer[dataSize * get..dataSize * get + dataSize]);
      CopiedOut(was, buffer[dataSize * get..dataSize * get + dataSize], data[..]);
      get := (get + 1) % maxCount;
      lastOp := QUEUE_LAST_GET;
      ok := true;
    }
  }

  lemma SlotRead(mem: seq<byte>, size: nat, count: nat, k: nat)
    requires size * count <= |mem| && k < count
    ensures 0 <= size * k <= size * k + size <= |mem|
    ensures Slots(mem, size, count)[k] == mem[size * k..size * k + size]
  {
    SlotInside(size, count, k);
  }

  lemma CopiedOut(was: seq<byte>, data: seq<byte>, r: seq<byte>)
    requires |data| <= |was| && Overwritten(was, 0, data, r)
    ensures |r| == |was| && r[..|data|] == data && r[|data|..] == was[|data|..]
  {
  }
}
