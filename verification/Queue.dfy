/** The queue contract: one-byte keys in a store, used as a first-in first-out queue. */
module Queue {
  import opened Outcomes

  type Key = k: nat | k < 256
  type I32 = v: int | -0x8000_0000 <= v < 0x8000_0000

  // ----- the abstract queue -----

  /** The queued values, and the key of the first one. */
  datatype Fifo = Fifo(head: nat, items: seq<I32>)

  /** The next key is one above the last, in a u8: past 255 the contract panics. */
  function Enqueued(f: Fifo, value: I32): Outcome<Fifo> {
    if f.items == [] then Ok(Fifo(0, [value]))
    else if f.head + |f.items| > 255 then Panic
    else Ok(Fifo(f.head, f.items + [value]))
  }

  function Dequeued(f: Fifo): Fifo {
    if f.items == [] then f else Fifo(f.head + 1, f.items[1..])
  }

  datatype Op = Enqueue(value: I32) | Dequeue

  /** A queue with everything it accepted and everything it gave back, in order. */
  datatype History = History(queue: Fifo, accepted: seq<I32>, removed: seq<I32>)

  function Step(h: History, op: Op): History {
    match op
    case Enqueue(value) =>
      var next := Enqueued(h.queue, value);
      if next.Ok? then History(next.value, h.accepted + [value], h.removed) else h
    case Dequeue =>
      if h.queue.items == [] then h
      else History(Dequeued(h.queue), h.accepted, h.removed + [h.queue.items[0]])
  }

  function Run(h: History, ops: seq<Op>): History
    decreases |ops|
  {
    if ops == [] then h else Run(Step(h, ops[0]), ops[1..])
  }

  ghost predicate InOrder(h: History) {
    h.accepted == h.removed + h.queue.items && h.queue.head + |h.queue.items| <= 256
  }

  lemma {:induction false} RunInOrder(h: History, ops: seq<Op>)
    requires InOrder(h)
    ensures InOrder(Run(h, ops))
    decreases |ops|
  {
    if ops != [] {
      RunInOrder(Step(h, ops[0]), ops[1..]);
    }
  }

  /** Over every run, values come out in the order they went in, none lost, none repeated. */
  lemma FirstInFirstOut(ops: seq<Op>)
    ensures var h := Run(History(Fifo(0, []), [], []), ops);
            h.accepted == h.removed + h.queue.items
  {
    RunInOrder(History(Fifo(0, []), [], []), ops);
  }

  // ----- sums in 32 bits -----

  /** Left-to-right addition that panics as soon as it leaves 32 bits. */
  function AddAll(items: seq<I32>, acc: I32): Outcome<I32> {
    if items == [] then Ok(acc)
    else if -0x8000_0000 <= acc + items[0] < 0x8000_0000 then AddAll(items[1..], acc + items[0])
    else Panic
  }

  function Total(items: seq<I32>): int {
    if items == [] then 0 else items[0] + Total(items[1..])
  }

  /** Addition succeeds exactly when every partial sum fits, and then it is the total. */
  lemma {:induction false} AddAllExact(items: seq<I32>, acc: I32)
    ensures AddAll(items, acc).Ok? <==>
            forall n :: 0 <= n <= |items| ==> -0x8000_0000 <= acc + Total(items[..n]) < 0x8000_0000
    ensures AddAll(items, acc).Ok? ==> AddAll(items, acc).value == acc + Total(items)
  {
    if items == [] {
      assert Total(items[..0]) == 0;
    } else {
      var rest := items[1..];
      assert forall n :: 1 <= n <= |items| ==> items[..n][1..] == rest[..n - 1];
      assert items[..0] == [];
      assert forall n :: 1 <= n <= |items| ==> Total(items[..n]) == items[0] + Total(rest[..n - 1]);
      assert Total(items[..1]) == items[0];
      if -0x8000_0000 <= acc + items[0] < 0x8000_0000 {
        AddAllExact(rest, acc + items[0]);
        assert forall n :: 0 <= n <= |rest| ==>
            acc + items[0] + Total(rest[..n]) == acc + Total(items[..n + 1]);
      }
    }
  }

  function Larger(items: seq<I32>, v: I32): seq<I32> {
    if items == [] then []
    else (if items[0] > v then [items[0]] else []) + Larger(items[1..], v)
  }

  /** The counters of the reducer: each value with the sum of the strictly larger ones. */
  predicate Counters(items: seq<I32>, n: nat, out: seq<(I32, I32)>)
    requires n <= |items|
  {
    |out| == n && forall i :: 0 <= i < n ==> out[i] == (items[i], Total(Larger(items, items[i])))
  }

  /** The sum of the values above `v` never leaves 32 bits on the way. */
  predicate SumFits(items: seq<I32>, v: I32) {
    AddAll(Larger(items, v), 0).Ok?
  }

  lemma CountersAppend(items: seq<I32>, n: nat, out: seq<(I32, I32)>, sum: I32)
    requires n < |items| && Counters(items, n, out) && sum == Total(Larger(items, items[n]))
    ensures Counters(items, n + 1, out + [(items[n], sum)])
  {
  }

  lemma {:induction false} LargerAppend(items: seq<I32>, x: I32, v: I32)
    ensures Larger(items + [x], v) == Larger(items, v) + (if x > v then [x] else [])
  {
    if items == [] {
      assert [x][1..] == [];
    } else {
      LargerAppend(items[1..], x, v);
      assert (items + [x])[1..] == items[1..] + [x];
    }
  }

  lemma {:induction false} AddAllAppend(items: seq<I32>, x: I32, acc: I32)
    ensures AddAll(items + [x], acc) ==
            if AddAll(items, acc).Ok? then AddAll([x], AddAll(items, acc).value) else Panic
  {
    if items == [] {
      assert items + [x] == [x];
    } else {
      assert (items + [x])[1..] == items[1..] + [x];
      if -0x8000_0000 <= acc + items[0] < 0x8000_0000 {
        AddAllAppend(items[1..], x, acc + items[0]);
      }
    }
  }

  lemma {:induction false} AddAllPrefix(items: seq<I32>, n: nat, acc: I32)
    requires n <= |items| && !AddAll(items[..n], acc).Ok?
    ensures AddAll(items, acc) == Panic
  {
    assert items[..n][1..] == items[1..][..n - 1];
    if -0x8000_0000 <= acc + items[0] < 0x8000_0000 {
      AddAllPrefix(items[1..], n - 1, acc + items[0]);
    }
  }

  method AddUp(values: seq<I32>) returns (sum: Outcome<I32>)
    ensures sum == AddAll(values, 0)
  {
    var acc: I32 := 0;
    for i := 0 to |values|
      invariant AddAll(values[..i], 0) == Ok(acc)
    {
      AddAllAppend(values[..i], values[i], 0);
      assert values[..i + 1] == values[..i] + [values[i]];
      if !(-0x8000_0000 <= acc + values[i] < 0x8000_0000) {
        AddAllPrefix(values, i + 1, 0);
        return Panic;
      }
      acc := acc + values[i];
    }
    assert values[..|values|] == values;
    sum := Ok(acc);
  }

  method FilterLarger(values: seq<I32>, v: I32) returns (larger: seq<I32>)
    ensures larger == Larger(values, v)
  {
    larger := [];
    for i := 0 to |values|
      invariant larger == Larger(values[..i], v)
    {
      assert values[..i + 1] == values[..i] + [values[i]];
      LargerAppend(values[..i], values[i], v);
      if values[i] > v {
        larger := larger + [values[i]];
      }
    }
    assert values[..|values|] == values;
  }

  // ----- the contract -----

  /** The stored keys are one contiguous block holding the items in order. */
  ghost predicate Holds(store: map<Key, I32>, f: Fifo) {
    && f.head + |f.items| <= 256
    && (forall k: Key :: k in store <==> f.head <= k < f.head + |f.items|)
    && (forall i :: 0 <= i < |f.items| ==> store[f.head + i] == f.items[i])
  }

  /** One value was added, under a key directly above the last one, or under the first key. */
  ghost predicate Appended(before: map<Key, I32>, after: map<Key, I32>, k: Key, value: I32) {
    && after == before[k := value]
    && (forall other: Key :: other in before ==> other < k)
    && (before == map[] ==> k == 0)
    && (before != map[] ==> exists last: Key :: last in before && last + 1 == k)
  }

  class Contract {
    var store: map<Key, I32>
    ghost var queue: Fifo

    ghost predicate Valid()
      reads this
    {
      Holds(store, queue)
    }

    constructor ()
      ensures Valid() && queue == Fifo(0, [])
    {
      store := map[];
      queue := Fifo(0, []);
    }

    method DoEnqueue(value: I32) returns (r: Outcome<()>)
      requires Valid()
      modifies this
      ensures Valid()
      ensures match Enqueued(old(queue), value)
              case Ok(next) => r == Ok(()) && queue == next
              case _ => r == Panic && queue == old(queue) && store == old(store)
      ensures r.Ok? <==> 255 !in old(store)
      ensures r.Ok? ==> exists k: Key :: Appended(old(store), store, k, value)
    {
      var newKey: Key := 0;
      assert queue.items != [] ==> queue.head in store;
      if store != map[] {
        ghost var tail: Key := queue.head + |queue.items| - 1;
        assert tail in store && IsLast(store, tail);
        var last: Key :| last in store && IsLast(store, last);
        assert IsLast(store, last) && last == tail;
        if last == 255 {
          return Panic;
        }
        newKey := last + 1;
      }
      assert Appended(store, store[newKey := value], newKey, value);
      store := store[newKey := value];
      queue := Enqueued(queue, value).value;
      return Ok(());
    }

    method DoDequeue() returns (data: Option<I32>)
      requires Valid()
      modifies this
      ensures Valid() && queue == Dequeued(old(queue))
      ensures data == if old(queue).items == [] then None else Some(old(queue).items[0])
    {
      if store == map[] {
        assert queue.items != [] ==> queue.head in store;
        return None;
      }
      assert queue.items != [];
      ghost var head: Key := queue.head;
      assert head in store && IsFirst(store, head);
      var first: Key :| first in store && IsFirst(store, first);
      assert IsFirst(store, first) && first == head;
      data := Some(store[first]);
      store := store - {first};
      queue := Dequeued(queue);
    }

    /** Delivers operations one after the other. What was accepted, removed and is still queued is what the
        abstract queue says; from an empty queue, values come out in the order they went in. */
    method DeliverAll(ops: seq<Op>) returns (accepted: seq<I32>, removed: seq<I32>)
      requires Valid()
      modifies this
      ensures Valid()
      ensures History(queue, accepted, removed) == Run(History(old(queue), [], []), ops)
      ensures old(queue).items == [] ==> accepted == removed + queue.items
    {
      accepted, removed := [], [];
      for i := 0 to |ops|
        invariant Valid()
        invariant Run(History(queue, accepted, removed), ops[i..]) == Run(History(old(queue), [], []), ops)
      {
        assert ops[i..][1..] == ops[i + 1..];
        match ops[i] {
          case Enqueue(value) =>
            var r := DoEnqueue(value);
            if r.Ok? {
              accepted := accepted + [value];
            }
          case Dequeue =>
            var data := DoDequeue();
            if data.Some? {
              removed := removed + [data.value];
            }
        }
      }
      if old(queue).items == [] {
        RunInOrder(History(old(queue), [], []), ops);
      }
    }

    /** The stored values in ascending key order. */
    method Range() returns (values: seq<I32>)
      requires Valid()
      ensures values == queue.items
    {
      values := [];
      for k := 0 to 256
        invariant values == queue.items[..Clip(k - queue.head, |queue.items|)]
      {
        if k in store {
          values := values + [store[k]];
        }
      }
    }

    method QueryCount() returns (count: nat)
      requires Valid()
      ensures count == |queue.items|
    {
      var values := Range();
      count := |values|;
    }

    method QuerySum() returns (sum: Outcome<I32>)
      requires Valid()
      ensures sum == AddAll(queue.items, 0)
    {
      var values := Range();
      sum := AddUp(values);
    }

    /** The inner loop of the reducer, over a second iterator on the same store. */
    method SumLarger(v: I32) returns (sum: Outcome<I32>)
      requires Valid()
      ensures sum.Ok? <==> SumFits(queue.items, v)
      ensures sum.Ok? ==> sum.value == Total(Larger(queue.items, v))
    {
      var again := Range();
      var larger := FilterLarger(again, v);
      sum := AddUp(larger);
      AddAllExact(larger, 0);
    }

    /** Each value, in order, with the sum of the strictly larger ones; it fails exactly when one of these
        sums leaves 32 bits on the way. */
    method QueryReducer() returns (counters: Outcome<seq<(I32, I32)>>)
      requires Valid()
      ensures counters.Ok? <==> forall i :: 0 <= i < |queue.items| ==> SumFits(queue.items, queue.items[i])
      ensures counters.Ok? ==> Counters(queue.items, |queue.items|, counters.value)
    {
      var values := Range();
      var out: seq<(I32, I32)> := [];
      for i := 0 to |values|
        invariant forall j :: 0 <= j < i ==> SumFits(values, values[j])
        invariant Counters(values, i, out)
      {
        var sum := SumLarger(values[i]);
        if sum.IsFailure() {
          return sum.PropagateFailure();
        }
        CountersAppend(values, i, out, sum.value);
        out := out + [(values[i], sum.value)];
      }
      counters := Ok(out);
    }
  }

  function Clip(n: int, max: nat): nat {
    if n < 0 then 0 else if n > max then max else n
  }

  predicate IsLast(store: map<Key, I32>, last: Key) {
    forall k :: k in store ==> k <= last
  }

  predicate IsFirst(store: map<Key, I32>, first: Key) {
    forall k :: k in store ==> first <= k
  }

  /** Exactly the strictly larger values, as often as they occur. */
  lemma {:induction false} LargerExact(items: seq<I32>, v: I32, x: I32)
    ensures multiset(Larger(items, v))[x] == (if x > v then multiset(items)[x] else 0)
  {
    if items != [] {
      LargerExact(items[1..], v, x);
      assert items == [items[0]] + items[1..];
    }
  }

  /** The total of one value is that value, and totals of parts add up. */
  lemma {:induction false} TotalExact(a: seq<I32>, b: seq<I32>, x: I32)
    ensures Total([x]) == x && Total(a + b) == Total(a) + Total(b)
  {
    assert [x][1..] == [];
    if a == [] {
      assert a + b == b;
    } else {
      TotalExact(a[1..], b, x);
      assert (a + b)[1..] == a[1..] + b;
    }
  }
}
