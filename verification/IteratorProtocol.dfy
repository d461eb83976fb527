/** Any number of contract calls, nested or concurrent, opening and advancing iterators through the shared
    table. Every event touches the table once, as the table's mutex guarantees. */
module IteratorProtocol {
  import opened Outcomes
  import opened Uint128
  import opened Lexicographic
  import opened KvScan
  import opened IteratorStack
  import opened IteratorContext

  /** A store iterator, named by its place in `System.heap`: its entries, where it is, how often it was
      closed, and the call that opened it. */
  datatype Iter = Iter(items: seq<KV>, pos: nat, closes: nat, call: nat)

  /** A call over its own unchanged store, which knows the counter value it was given, or one that has left
      the VM and still has iterators to close. */
  datatype Call = Running(counter: nat, store: Store, ids: Ids) | Closing(left: seq<nat>)

  /** Calls are named by the order in which they began. */
  datatype System = System(table: Table<nat>, heap: seq<Iter>, calls: seq<Call>)

  datatype Event =
    | Begin(store: Store)
    | Open(call: nat, start: Option<Str>, end: Option<Str>, order: Order)
    | Next(call: nat, id: nat)
    | End(call: nat)
    | CloseOne(call: nat)

  const START: System := System(Table(0, map[]), [], [])

  predicate IsRunning(s: System, c: nat) {
    c < |s.calls| && s.calls[c].Running?
  }

  /** The iterator a call reaches through one of its ids. */
  function Reached(s: System, c: nat, id: nat): Option<nat> {
    if !IsRunning(s, c) || id !in s.calls[c].ids then None
    else
      var h := s.calls[c].ids[id];
      var found := Retrieved(s.table, h.dbCounter, h.iteratorIndex);
      if h.dbCounter != 0 && found.Some? && found.value < |s.heap| then found else None
  }

  /** The entry at a position, or nothing past the end. */
  function At(items: seq<KV>, pos: nat): Option<KV> {
    if pos < |items| then Some(items[pos]) else None
  }

  function Advanced(it: Iter): Iter {
    if it.pos < |it.items| then it.(pos := it.pos + 1) else it
  }

  /** Stores a new iterator over `items` in the frame of `c` and gives the call an id for it. */
  function Opened(s: System, c: nat, items: seq<KV>): System
    requires IsRunning(s, c)
  {
    var call := s.calls[c];
    System(Stored(s.table, call.counter, |s.heap|), s.heap + [Iter(items, 0, 0, c)],
           s.calls[c := call.(ids := Added(call.ids, Handle(call.counter, |Frame(s.table, call.counter)| + 1)))])
  }

  ghost function Step(s: System, e: Event): System {
    match e
    case Begin(store) =>
      var t := Started(s.table);
      System(t, s.heap, s.calls + [Running(t.counter, store, map[])])
    case Open(c, start, end, order) =>
      if !IsRunning(s, c) then s else Opened(s, c, Scan(s.calls[c].store, start, end, order))
    case Next(c, id) =>
      if Reached(s, c, id).None? then s
      else s.(heap := s.heap[Reached(s, c, id).value := Advanced(s.heap[Reached(s, c, id).value])])
    case End(c) =>
      if !IsRunning(s, c) then s
      else
        var counter := s.calls[c].counter;
        s.(table := Popped(s.table, counter), calls := s.calls[c := Closing(Frame(s.table, counter))])
    case CloseOne(c) =>
      if c >= |s.calls| || !s.calls[c].Closing? || s.calls[c].left == [] || s.calls[c].left[0] >= |s.heap| then s
      else
        var i := s.calls[c].left[0];
        s.(heap := s.heap[i := s.heap[i].(closes := s.heap[i].closes + 1)],
           calls := s.calls[c := Closing(s.calls[c].left[1..])])
  }

  ghost function Run(s: System, es: seq<Event>): System
    decreases |es|
  {
    if es == [] then s else Run(Step(s, es[0]), es[1..])
  }

  // ----- the invariant -----

  /** Iterators a call opened and nobody has closed yet. */
  function Pending(s: System, c: nat): seq<nat>
    requires c < |s.calls|
  {
    if s.calls[c].Running? then Frame(s.table, s.calls[c].counter) else s.calls[c].left
  }

  /** Pending iterators belong to the call, are distinct and have not been closed. */
  ghost predicate PendingOk(p: seq<nat>, heap: seq<Iter>, c: nat) {
    && (forall i :: 0 <= i < |p| ==> p[i] < |heap| && heap[p[i]].call == c && heap[p[i]].closes == 0)
    && (forall i, j :: 0 <= i < j < |p| ==> p[i] < p[j])
  }

  /** Ids count from 1 and point at different places of the call's own frame. */
  ghost predicate IdsOk(ids: Ids, counter: nat, frameSize: nat) {
    && (forall id :: id in ids <==> 1 <= id <= |ids|)
    && (forall id :: id in ids ==> ids[id].dbCounter == counter && 1 <= ids[id].iteratorIndex <= frameSize)
    && (forall i, j :: i in ids && j in ids && i < j ==> ids[i].iteratorIndex < ids[j].iteratorIndex)
  }

  ghost predicate CallOk(s: System, c: nat) {
    c < |s.calls| ==>
      && PendingOk(Pending(s, c), s.heap, c)
      && (s.calls[c].Running? ==>
            s.calls[c].counter != 0 && IdsOk(s.calls[c].ids, s.calls[c].counter, |Frame(s.table, s.calls[c].counter)|))
  }

  /** Every iterator ever opened is pending in its own call, or has been closed exactly once. */
  ghost predicate IterOk(s: System, i: nat) {
    i < |s.heap| ==>
      && s.heap[i].call < |s.calls|
      && s.heap[i].closes == (if i in Pending(s, s.heap[i].call) then 0 else 1)
  }

  predicate RunsUnder(s: System, c: nat, counter: nat) {
    IsRunning(s, c) && s.calls[c].counter == counter
  }

  /** No two running calls share a counter value. */
  ghost predicate OwnCounters(s: System) {
    forall c: nat, d: nat, k: nat :: RunsUnder(s, c, k) && RunsUnder(s, d, k) ==> c == d
  }

  ghost predicate Owned(s: System, counter: nat) {
    exists c: nat :: RunsUnder(s, c, counter)
  }

  ghost predicate Inv(s: System) {
    && (forall c :: CallOk(s, c))
    && (forall i :: IterOk(s, i))
    && OwnCounters(s)
    && (forall counter :: counter in s.table.frames ==> Owned(s, counter))
  }

  /** The next counter value is not the zero that Go refuses as a handle, and no running call has it. */
  ghost predicate Fresh(s: System) {
    var counter := Started(s.table).counter;
    counter != 0 && !Owned(s, counter)
  }

  lemma BeginKeeps(s: System, store: Store)
    requires Inv(s) && Fresh(s)
    ensures Inv(Step(s, Begin(store)))
  {
    var s' := Step(s, Begin(store));
    var counter := s'.table.counter;
    assert counter !in s.table.frames;
    assert forall c: nat, k: nat :: RunsUnder(s', c, k) <==> RunsUnder(s, c, k) || (c == |s.calls| && k == counter);
    forall c ensures CallOk(s', c) {
      assert CallOk(s, c);
    }
    forall i: nat ensures IterOk(s', i) {
      assert IterOk(s, i);
    }
    forall k: nat | k in s'.table.frames ensures Owned(s', k) {
      assert Owned(s, k);
      var c: nat :| RunsUnder(s, c, k);
      assert RunsUnder(s', c, k);
    }
  }

  lemma AddedKeeps(ids: Ids, c: nat, frameSize: nat)
    requires IdsOk(ids, c, frameSize)
    ensures IdsOk(Added(ids, Handle(c, frameSize + 1)), c, frameSize + 1)
  {
    var ids' := Added(ids, Handle(c, frameSize + 1));
    if NewId(ids).Ok? {
      assert |ids| + 1 !in ids && |ids'| == |ids| + 1;
    }
  }

  lemma PendingAppend(p: seq<nat>, heap: seq<Iter>, c: nat, items: seq<KV>)
    requires PendingOk(p, heap, c)
    ensures PendingOk(p + [|heap|], heap + [Iter(items, 0, 0, c)], c)
  {
    var p' := p + [|heap|];
    assert forall i :: 0 <= i < |p| ==> p'[i] == p[i];
  }

  lemma OwnCallKeeps(s: System, c: nat, items: seq<KV>)
    requires IsRunning(s, c) && CallOk(s, c)
    ensures CallOk(Opened(s, c, items), c)
    ensures Pending(Opened(s, c, items), c) == Pending(s, c) + [|s.heap|]
  {
    AddedKeeps(s.calls[c].ids, s.calls[c].counter, |Frame(s.table, s.calls[c].counter)|);
    PendingAppend(Pending(s, c), s.heap, c, items);
  }

  lemma OtherCallKeeps(s: System, c: nat, items: seq<KV>, d: nat)
    requires Inv(s) && IsRunning(s, c) && d < |s.calls| && d != c
    ensures Pending(Opened(s, c, items), d) == Pending(s, d) && CallOk(Opened(s, c, items), d)
  {
    assert CallOk(s, d);
    assert RunsUnder(s, c, s.calls[c].counter) && !RunsUnder(s, d, s.calls[c].counter);
  }

  lemma OpenedCall(s: System, c: nat, items: seq<KV>, d: nat)
    requires Inv(s) && IsRunning(s, c)
    ensures CallOk(Opened(s, c, items), d)
  {
    assert CallOk(s, d);
    if d == c {
      OwnCallKeeps(s, c, items);
    } else if d < |s.calls| {
      OtherCallKeeps(s, c, items, d);
    }
  }

  lemma OpenedIter(s: System, c: nat, items: seq<KV>, i: nat)
    requires Inv(s) && IsRunning(s, c)
    ensures IterOk(Opened(s, c, items), i)
  {
    assert IterOk(s, i) && CallOk(s, c);
    OwnCallKeeps(s, c, items);
    var frame, i0 := Pending(s, c), |s.heap|;
    assert i in frame + [i0] <==> i == i0 || i in frame;
    if i < i0 && s.heap[i].call != c {
      OtherCallKeeps(s, c, items, s.heap[i].call);
    }
  }

  lemma OpenedKeeps(s: System, c: nat, items: seq<KV>)
    requires Inv(s) && IsRunning(s, c)
    ensures Inv(Opened(s, c, items))
  {
    var s' := Opened(s, c, items);
    forall d: nat ensures CallOk(s', d) {
      OpenedCall(s, c, items, d);
    }
    forall i: nat ensures IterOk(s', i) {
      OpenedIter(s, c, items, i);
    }
    OwnersKept(s, s');
    assert RunsUnder(s', c, s.calls[c].counter);
  }

  /** Ownership depends only on which calls run under which counter. */
  lemma OwnersKept(s: System, s': System)
    requires forall c: nat, k: nat :: RunsUnder(s, c, k) <==> RunsUnder(s', c, k)
    ensures forall k: nat :: Owned(s, k) ==> Owned(s', k)
    ensures OwnCounters(s) ==> OwnCounters(s')
  {
    forall k: nat | Owned(s, k) ensures Owned(s', k) {
      var c: nat :| RunsUnder(s, c, k);
      assert RunsUnder(s', c, k);
    }
  }

  lemma NextKeeps(s: System, c: nat, id: nat)
    requires Inv(s)
    ensures Inv(Step(s, Next(c, id)))
  {
    var s' := Step(s, Next(c, id));
    forall d ensures CallOk(s', d) {
      assert CallOk(s, d);
    }
    forall i: nat ensures IterOk(s', i) {
      assert IterOk(s, i);
    }
    OwnersKept(s, s');
  }

  lemma EndKeeps(s: System, c: nat)
    requires Inv(s)
    ensures Inv(Step(s, End(c)))
  {
    var s' := Step(s, End(c));
    if IsRunning(s, c) {
      assert forall d: nat, k: nat :: RunsUnder(s', d, k) ==> RunsUnder(s, d, k);
      forall d: nat ensures d < |s.calls| ==> Pending(s', d) == Pending(s, d) {
        assert RunsUnder(s, c, s.calls[c].counter);
        assert d != c && IsRunning(s, d) ==> !RunsUnder(s, d, s.calls[c].counter);
      }
      forall d ensures CallOk(s', d) {
        assert CallOk(s, d);
      }
      forall i: nat ensures IterOk(s', i) {
        assert IterOk(s, i);
      }
      forall k: nat | k in s'.table.frames ensures Owned(s', k) {
        assert Owned(s, k);
        var d: nat :| RunsUnder(s, d, k);
        assert RunsUnder(s', d, k);
      }
    }
  }

  lemma CloseOneKeeps(s: System, c: nat)
    requires Inv(s)
    ensures Inv(Step(s, CloseOne(c)))
  {
    var s' := Step(s, CloseOne(c));
    if s' != s {
      var left := s.calls[c].left;
      var closed := left[0];
      assert CallOk(s, c);
      assert left == [closed] + left[1..];
      forall d ensures CallOk(s', d) {
        assert CallOk(s, d);
      }
      forall i: nat ensures IterOk(s', i) {
        assert IterOk(s, i);
        assert i in left <==> i == closed || i in left[1..];
      }
      OwnersKept(s, s');
    }
  }

  lemma StepKeeps(s: System, e: Event)
    requires Inv(s) && (e.Begin? ==> Fresh(s))
    ensures Inv(Step(s, e))
  {
    match e
    case Begin(store) => BeginKeeps(s, store);
    case Open(c, start, end, order) =>
      if IsRunning(s, c) {
        OpenedKeeps(s, c, Scan(s.calls[c].store, start, end, order));
      }
    case Next(c, id) => NextKeeps(s, c, id);
    case End(c) => EndKeeps(s, c);
    case CloseOne(c) => CloseOneKeeps(s, c);
  }

  /** Every call of the run begins with a fresh counter value. */
  ghost predicate FreshRun(s: System, es: seq<Event>)
    decreases |es|
  {
    es != [] ==> (es[0].Begin? ==> Fresh(s)) && FreshRun(Step(s, es[0]), es[1..])
  }

  lemma {:induction false} RunKeeps(s: System, es: seq<Event>)
    requires Inv(s) && FreshRun(s, es)
    ensures Inv(Run(s, es))
    decreases |es|
  {
    if es != [] {
      StepKeeps(s, es[0]);
      RunKeeps(Step(s, es[0]), es[1..]);
    }
  }

  function Begins(es: seq<Event>): nat {
    if es == [] then 0 else (if es[0].Begin? then 1 else 0) + Begins(es[1..])
  }

  /** The counter values handed out so far. */
  ghost predicate Counted(s: System) {
    forall c: nat :: IsRunning(s, c) ==> s.calls[c].counter <= s.table.counter
  }

  /** Until the counter wraps around, which takes 2^64 calls, every call is fresh. */
  lemma {:induction false} FewCallsAreFresh(s: System, es: seq<Event>)
    requires Counted(s) && s.table.counter + Begins(es) < TWO_64
    ensures FreshRun(s, es)
    decreases |es|
  {
    if es != [] {
      var next := Step(s, es[0]);
      forall c: nat | IsRunning(next, c) ensures next.calls[c].counter <= next.table.counter {
        assert c < |s.calls| ==> IsRunning(s, c) && next.calls[c].counter == s.calls[c].counter;
      }
      FewCallsAreFresh(next, es[1..]);
    }
  }

  // ----- what a contract sees through one id -----

  /** An id keeps its iterator as long as its own frame only grows. */
  lemma ReachStable(s: System, s': System, c: nat, id: nat)
    requires Reached(s, c, id).Some? && s.calls[c].ids[id].dbCounter == s.calls[c].counter
    requires IsRunning(s', c) && id in s'.calls[c].ids && s'.calls[c].ids[id] == s.calls[c].ids[id]
    requires Frame(s.table, s.calls[c].counter) <= Frame(s'.table, s.calls[c].counter) && |s.heap| <= |s'.heap|
    ensures Reached(s', c, id) == Reached(s, c, id)
  {
  }

  lemma OpenedReached(s: System, d: nat, items: seq<KV>, c: nat, id: nat)
    requires CallOk(s, c) && IsRunning(s, d) && Reached(s, c, id).Some?
    ensures Reached(Opened(s, d, items), c, id) == Reached(s, c, id)
    ensures Opened(s, d, items).heap[Reached(s, c, id).value] == s.heap[Reached(s, c, id).value]
  {
    ReachStable(s, Opened(s, d, items), c, id);
  }

  lemma NextReached(s: System, e: Event, c: nat, id: nat)
    requires Inv(s) && e.Next? && Reached(s, c, id).Some?
    ensures Reached(Step(s, e), c, id) == Reached(s, c, id)
    ensures Step(s, e).heap[Reached(s, c, id).value] ==
            if e == Next(c, id) then Advanced(s.heap[Reached(s, c, id).value]) else s.heap[Reached(s, c, id).value]
  {
    assert CallOk(s, c) && CallOk(s, e.call);
    if Reached(s, e.call, e.id) == Reached(s, c, id) {
      OnlyOneId(s, c, id, e.call, e.id);
    }
  }

  lemma EndReached(s: System, e: Event, c: nat, id: nat)
    requires Inv(s) && (e.End? || e.CloseOne?) && e != End(c) && Reached(s, c, id).Some?
    ensures Reached(Step(s, e), c, id) == Reached(s, c, id)
    ensures var i := Reached(s, c, id).value;
            Step(s, e).heap[i].(closes := s.heap[i].closes) == s.heap[i]
  {
    assert CallOk(s, c);
    if e.End? && IsRunning(s, e.call) {
      assert RunsUnder(s, c, s.calls[c].counter) && !RunsUnder(s, e.call, s.calls[c].counter);
    }
    ReachStable(s, Step(s, e), c, id);
  }

  /** Until its own call ends, an id keeps reaching the iterator it was issued for, and only `next` on that
      very id moves it. */
  lemma ReachedKept(s: System, e: Event, c: nat, id: nat)
    requires Inv(s) && (e.Begin? ==> Fresh(s))
    requires Reached(s, c, id).Some? && e != End(c)
    ensures Reached(Step(s, e), c, id) == Reached(s, c, id)
    ensures var i := Reached(s, c, id).value;
            Step(s, e).heap[i].(closes := s.heap[i].closes) ==
            if e == Next(c, id) then Advanced(s.heap[i]) else s.heap[i]
  {
    match e
    case Begin(_) =>
      assert CallOk(s, c);
      ReachStable(s, Step(s, e), c, id);
    case Open(d, start, end, order) =>
      assert CallOk(s, c);
      if IsRunning(s, d) {
        OpenedReached(s, d, Scan(s.calls[d].store, start, end, order), c, id);
      }
    case Next(_, _) => NextReached(s, e, c, id);
    case End(_) => EndReached(s, e, c, id);
    case CloseOne(_) => EndReached(s, e, c, id);
  }

  lemma OnlyOneId(s: System, c: nat, id: nat, d: nat, other: nat)
    requires CallOk(s, c) && CallOk(s, d)
    requires Reached(s, c, id).Some? && Reached(s, d, other) == Reached(s, c, id)
    ensures d == c && other == id
  {
    var i, j := s.calls[c].ids[id].iteratorIndex, s.calls[d].ids[other].iteratorIndex;
    var p, q := Pending(s, c), Pending(s, d);
    assert p[i - 1] == q[j - 1];
    assert s.heap[p[i - 1]].call == c && s.heap[q[j - 1]].call == d;
    assert i == j;
  }

  /** What `next` on an id returns. */
  function Result(s: System, c: nat, id: nat): Outcome<Option<KV>> {
    if Reached(s, c, id).None? then Err(GenericErr("iterator does not exist"))
    else
      var it := s.heap[Reached(s, c, id).value];
      Ok(At(it.items, it.pos))
  }

  /** The results of all `next` calls on one id during a run, in order. */
  ghost function Results(s: System, es: seq<Event>, c: nat, id: nat): seq<Outcome<Option<KV>>>
    decreases |es|
  {
    if es == [] then []
    else (if es[0] == Next(c, id) then [Result(s, c, id)] else []) + Results(Step(s, es[0]), es[1..], c, id)
  }

  /** Successive entries from a position on, then nothing. */
  ghost predicate Streams(results: seq<Outcome<Option<KV>>>, items: seq<KV>, pos: nat) {
    forall k :: 0 <= k < |results| ==> results[k] == Ok(At(items, pos + k))
  }

  lemma StreamsFrom(rest: seq<Outcome<Option<KV>>>, it: Iter)
    requires Streams(rest, it.items, Advanced(it).pos)
    ensures Streams([Ok(At(it.items, it.pos))] + rest, it.items, it.pos)
  {
    var results := [Ok(At(it.items, it.pos))] + rest;
    forall k | 0 < k < |results| ensures results[k] == Ok(At(it.items, it.pos + k)) {
      assert results[k] == rest[k - 1];
    }
  }

  lemma {:induction false} RunYields(s: System, es: seq<Event>, c: nat, id: nat)
    requires Inv(s) && FreshRun(s, es) && Reached(s, c, id).Some? && End(c) !in es
    ensures var it := s.heap[Reached(s, c, id).value];
            Streams(Results(s, es, c, id), it.items, it.pos)
    ensures Reached(Run(s, es), c, id) == Reached(s, c, id)
    decreases |es|
  {
    if es != [] {
      var next := Step(s, es[0]);
      StepKeeps(s, es[0]);
      ReachedKept(s, es[0], c, id);
      RunYields(next, es[1..], c, id);
      var rest := Results(next, es[1..], c, id);
      if es[0] == Next(c, id) {
        StreamsFrom(rest, s.heap[Reached(s, c, id).value]);
      } else {
        assert Results(s, es, c, id) == rest;
      }
    }
  }

  /** Opening hands out the next id, on a fresh iterator at the start of its entries. */
  lemma OpenedYields(s: System, c: nat, items: seq<KV>)
    requires CallOk(s, c) && IsRunning(s, c) && NewId(s.calls[c].ids).Ok?
    ensures var s' := Opened(s, c, items);
            var id := NewId(s.calls[c].ids).value;
            && id !in s.calls[c].ids
            && Reached(s', c, id) == Some(|s.heap|)
            && s'.heap[|s.heap|] == Iter(items, 0, 0, c)
  {
  }

  /** End to end: after any run, a call that opens a range and then asks for the next entry, however the
      other iterators and calls interleave, gets the entries of that range one by one and then nothing. */
  lemma ScanEndToEnd(before: seq<Event>, c: nat, start: Option<Str>, end: Option<Str>, order: Order, after: seq<Event>)
    requires FreshRun(START, before) && IsRunning(Run(START, before), c)
    requires FreshRun(Step(Run(START, before), Open(c, start, end, order)), after) && End(c) !in after
    requires NewId(Run(START, before).calls[c].ids).Ok?
    ensures var s := Run(START, before);
            var id := NewId(s.calls[c].ids).value;
            var items := Scan(s.calls[c].store, start, end, order);
            var results := Results(Step(s, Open(c, start, end, order)), after, c, id);
            Streams(results, items, 0)
  {
    var s := Run(START, before);
    RunKeeps(START, before);
    var items := Scan(s.calls[c].store, start, end, order);
    assert CallOk(s, c);
    OpenedYields(s, c, items);
    OpenedKeeps(s, c, items);
    RunYields(Step(s, Open(c, start, end, order)), after, c, NewId(s.calls[c].ids).value);
  }

  // ----- freshness is necessary -----

  /** A call that begins in `s` and opens a range. */
  ghost function BegunAndOpened(s: System, store: Store, start: Option<Str>, end: Option<Str>, order: Order): System {
    Step(Step(s, Begin(store)), Open(|s.calls|, start, end, order))
  }

  /** The new call reaches its iterator, and still does after any one of the other calls has ended. */
  ghost predicate Undisturbed(s: System, s2: System) {
    && Reached(s2, |s.calls|, 1) == Some(|s.heap|)
    && forall d: nat :: IsRunning(s, d) ==> Reached(Step(s2, End(d)), |s.calls|, 1) == Some(|s.heap|)
  }

  /** A new call can use iterators undisturbed exactly when its counter value is fresh: not zero, which Go
      refuses as a handle, and not the value of a call that is still running. */
  lemma FreshExactly(s: System, store: Store, start: Option<Str>, end: Option<Str>, order: Order)
    requires Inv(s)
    ensures Undisturbed(s, BegunAndOpened(s, store, start, end, order)) <==> Fresh(s)
  {
    var b, s1 := |s.calls|, Step(s, Begin(store));
    var s2 := BegunAndOpened(s, store, start, end, order);
    var counter := s1.table.counter;
    assert s2 == Opened(s1, b, Scan(store, start, end, order));
    if Fresh(s) {
      BeginKeeps(s, store);
      assert CallOk(s1, b);
      OpenedYields(s1, b, Scan(store, start, end, order));
      OpenedKeeps(s1, b, Scan(store, start, end, order));
      forall d: nat | IsRunning(s, d) ensures Reached(Step(s2, End(d)), b, 1) == Some(|s.heap|) {
        ReachedKept(s2, End(d), b, 1);
      }
    } else if counter != 0 {
      var d: nat :| RunsUnder(s, d, counter);
      assert IsRunning(s, d);
      assert Step(s2, End(d)).table == Popped(s2.table, counter);
      assert Reached(Step(s2, End(d)), b, 1).None?;
    }
  }

  // ----- lifetimes -----

  ghost predicate AllEnded(s: System) {
    forall c :: 0 <= c < |s.calls| ==> s.calls[c] == Closing([])
  }

  /** No iterator is ever closed twice; a closed one is out of reach; and when all calls have ended, the
      table is empty and every iterator ever opened has been closed. */
  lemma Lifetimes(es: seq<Event>)
    requires FreshRun(START, es)
    ensures var s := Run(START, es);
            && (forall i :: 0 <= i < |s.heap| ==> s.heap[i].closes <= 1)
            && (forall c, id :: Reached(s, c, id).Some? ==> s.heap[Reached(s, c, id).value].closes == 0)
            && (AllEnded(s) ==> s.table.frames == map[] && forall i :: 0 <= i < |s.heap| ==> s.heap[i].closes == 1)
  {
    var s := Run(START, es);
    RunKeeps(START, es);
    forall i | 0 <= i < |s.heap| ensures s.heap[i].closes <= 1 && (AllEnded(s) ==> s.heap[i].closes == 1) {
      assert IterOk(s, i);
    }
    forall c: nat, id: nat | Reached(s, c, id).Some?
      ensures s.heap[Reached(s, c, id).value].closes == 0
    {
      assert CallOk(s, c);
    }
  }
}
