/** The tables in memory run the protocol: one object holding the Go stack, the Rust contexts and every store
    iterator takes exactly the steps of `IteratorProtocol`. */
module IteratorHost {
  import opened Outcomes
  import opened Lexicographic
  import opened KvScan
  import opened IteratorStack
  import opened IteratorContext
  import opened IteratorProtocol

  // ----- tables of objects and tables of numbers -----

  /** The objects are those that `made` has under the given numbers. */
  ghost predicate SameFrame(objects: seq<DbIterator>, numbers: seq<nat>, made: seq<DbIterator>) {
    && |objects| == |numbers|
    && forall i :: 0 <= i < |numbers| ==> numbers[i] < |made| && objects[i] == made[numbers[i]]
  }

  ghost predicate SameTable(t: Table<DbIterator>, u: Table<nat>, made: seq<DbIterator>) {
    && t.counter == u.counter
    && (forall k :: k in t.frames <==> k in u.frames)
    && forall k :: k in u.frames ==> SameFrame(t.frames[k], u.frames[k], made)
  }

  lemma FrameSize(t: Table<DbIterator>, u: Table<nat>, made: seq<DbIterator>, k: nat)
    requires SameTable(t, u, made)
    ensures |Frame(t, k)| == |Frame(u, k)|
  {
    assert SameFrame(Frame(t, k), Frame(u, k), made);
  }

  lemma StoredSame(t: Table<DbIterator>, u: Table<nat>, made: seq<DbIterator>, k: nat, it: DbIterator)
    requires SameTable(t, u, made)
    ensures SameTable(Stored(t, k, it), Stored(u, k, |made|), made + [it])
  {
    assert SameFrame(Frame(t, k), Frame(u, k), made);
    forall j | j in Stored(u, k, |made|).frames
      ensures SameFrame(Stored(t, k, it).frames[j], Stored(u, k, |made|).frames[j], made + [it])
    {
      assert j != k ==> SameFrame(t.frames[j], u.frames[j], made);
    }
  }

  lemma RetrievedSame(t: Table<DbIterator>, u: Table<nat>, made: seq<DbIterator>, k: nat, index: nat)
    requires SameTable(t, u, made)
    ensures Retrieved(t, k, index).Some? <==> Retrieved(u, k, index).Some?
    ensures Retrieved(u, k, index).Some? ==>
              var i := Retrieved(u, k, index).value;
              i < |made| && Retrieved(t, k, index) == Some(made[i])
  {
    assert SameFrame(Frame(t, k), Frame(u, k), made);
  }

  /** Frames without repetition have numbers without repetition. */
  lemma FrameDistinct(t: Table<DbIterator>, u: Table<nat>, made: seq<DbIterator>, k: nat)
    requires SameTable(t, u, made) && StoredOnce(t.frames)
    ensures forall i, j :: 0 <= i < j < |Frame(u, k)| ==> Frame(u, k)[i] != Frame(u, k)[j]
    ensures forall i :: 0 <= i < |Frame(u, k)| ==> Frame(u, k)[i] < |made|
  {
    assert SameFrame(Frame(t, k), Frame(u, k), made);
    forall i, j | 0 <= i < j < |Frame(u, k)| ensures Frame(u, k)[i] != Frame(u, k)[j] {
      assert Frame(t, k)[i] != Frame(t, k)[j];
    }
  }

  // ----- closing a whole frame is one step per iterator -----

  function Closes(c: nat, n: nat): seq<Event> {
    seq(n, _ => CloseOne(c))
  }

  /** The heap after each of the listed iterators was closed once more. */
  ghost predicate ClosedOnce(heap: seq<Iter>, after: seq<Iter>, closed: seq<nat>) {
    && |after| == |heap|
    && forall i :: 0 <= i < |heap| ==> after[i] == heap[i].(closes := heap[i].closes + (if i in closed then 1 else 0))
  }

  lemma {:induction false} ClosesAll(s: System, c: nat)
    requires c < |s.calls| && s.calls[c].Closing?
    requires forall i :: 0 <= i < |s.calls[c].left| ==> s.calls[c].left[i] < |s.heap|
    requires forall i, j :: 0 <= i < j < |s.calls[c].left| ==> s.calls[c].left[i] != s.calls[c].left[j]
    ensures var after := Run(s, Closes(c, |s.calls[c].left|));
            && after.table == s.table && after.calls == s.calls[c := Closing([])]
            && ClosedOnce(s.heap, after.heap, s.calls[c].left)
    decreases |s.calls[c].left|
  {
    var left := s.calls[c].left;
    if left == [] {
      assert s.calls[c := Closing([])] == s.calls;
    } else {
      var next := Step(s, CloseOne(c));
      ClosesAll(next, c);
      assert Closes(c, |left|)[1..] == Closes(c, |left| - 1);
      assert next.calls[c := Closing([])] == s.calls[c := Closing([])];
      ClosedOneMore(s.heap, next.heap, Run(s, Closes(c, |left|)).heap, left);
    }
  }

  lemma ClosedOneMore(heap: seq<Iter>, next: seq<Iter>, after: seq<Iter>, closed: seq<nat>)
    requires closed != [] && closed[0] < |heap| && closed[0] !in closed[1..]
    requires next == heap[closed[0] := heap[closed[0]].(closes := heap[closed[0]].closes + 1)]
    requires ClosedOnce(next, after, closed[1..])
    ensures ClosedOnce(heap, after, closed)
  {
    assert closed == [closed[0]] + closed[1..];
  }

  // ----- iterators and calls in memory -----

  ghost predicate Mirrors(it: DbIterator, i: Iter)
    reads it
  {
    it.items == i.items && it.pos == i.pos && it.closes == i.closes
  }

  /** What the host remembers of a running call. */
  datatype Live = Live(counter: nat, store: Store, context: Context)

  ghost predicate SameCall(call: Option<Live>, p: Call)
    reads if call.Some? then {call.value.context} else {}
  {
    if call.None? then p.Closing? else p == Running(call.value.counter, call.value.store, call.value.context.iterators)
  }

  ghost function Contexts(calls: seq<Option<Live>>): set<Context> {
    set c | 0 <= c < |calls| && calls[c].Some? :: calls[c].value.context
  }

  ghost predicate OwnContexts(calls: seq<Option<Live>>) {
    forall c, d :: 0 <= c < d < |calls| && calls[c].Some? && calls[d].Some? ==>
      calls[c].value.context != calls[d].value.context
  }

  ghost predicate SameCalls(calls: seq<Option<Live>>, protocol: seq<Call>)
    reads Contexts(calls)
  {
    && |calls| == |protocol| && OwnContexts(calls)
    && forall c :: 0 <= c < |calls| ==>
         (calls[c].Some? ==> calls[c].value.context in Contexts(calls)) && SameCall(calls[c], protocol[c])
  }

  ghost predicate SameHeap(made: seq<DbIterator>, heap: seq<Iter>)
    reads made
  {
    && |made| == |heap|
    && (forall i :: 0 <= i < |made| ==> Mirrors(made[i], heap[i]))
    && forall i, j :: 0 <= i < j < |made| ==> made[i] != made[j]
  }

  lemma EndRuns(s: System, c: nat, n: nat)
    ensures Run(s, [End(c)] + Closes(c, n)) == Run(Step(s, End(c)), Closes(c, n))
  {
    assert ([End(c)] + Closes(c, n))[1..] == Closes(c, n);
  }

  /** An object is in the frame exactly when its number is. */
  lemma InFrame(objects: seq<DbIterator>, numbers: seq<nat>, made: seq<DbIterator>, i: nat)
    requires SameFrame(objects, numbers, made) && i < |made|
    requires forall i, j :: 0 <= i < j < |made| ==> made[i] != made[j]
    ensures made[i] in objects <==> i in numbers
  {
    if made[i] in objects {
      var k :| 0 <= k < |objects| && objects[k] == made[i];
      assert numbers[k] == i;
    }
    if i in numbers {
      var k :| 0 <= k < |numbers| && numbers[k] == i;
      assert objects[k] == made[i];
    }
  }

  lemma CallEnded(calls: seq<Option<Live>>, protocol: seq<Call>, c: nat)
    requires OwnContexts(calls) && c < |calls| == |protocol| && protocol[c].Closing?
    requires forall d :: 0 <= d < |calls| && d != c ==> SameCall(calls[d], protocol[d])
    ensures SameCalls(calls[c := None], protocol)
  {
    var ended := calls[c := None];
    forall d | 0 <= d < |ended|
      ensures (ended[d].Some? ==> ended[d].value.context in Contexts(ended)) && SameCall(ended[d], protocol[d])
    {
      assert d != c ==> ended[d] == calls[d];
    }
  }

  lemma StepOpen(s: System, c: nat, start: Option<Str>, end: Option<Str>, order: Order)
    requires IsRunning(s, c)
    ensures HasOpened(s, c, Scan(s.calls[c].store, start, end, order), Step(s, Open(c, start, end, order)))
  {
  }

  /** A new iterator joins the heap. */
  lemma HeapGrown(made: seq<DbIterator>, heap: seq<Iter>, it: DbIterator, i: Iter)
    requires SameHeap(made, heap) && it !in made && Mirrors(it, i)
    ensures SameHeap(made + [it], heap + [i])
  {
  }

  /** One call got a new id, and every other call matches as before. */
  lemma OneCallChanged(calls: seq<Option<Live>>, before: seq<Call>, after: seq<Call>, c: nat)
    requires OwnContexts(calls) && |calls| == |before| == |after| && c < |calls| && calls[c].Some?
    requires after == before[c := after[c]] && SameCall(calls[c], after[c])
    requires forall d :: 0 <= d < |calls| && d != c ==> SameCall(calls[d], before[d])
    ensures SameCalls(calls, after)
  {
  }

  /** One iterator moved on, and every other one matches as before. */
  lemma OneIteratorMoved(made: seq<DbIterator>, heap: seq<Iter>, n: nat)
    requires |made| == |heap| && n < |made| && Mirrors(made[n], Advanced(heap[n]))
    requires forall i, j :: 0 <= i < j < |made| ==> made[i] != made[j]
    requires forall i :: 0 <= i < |made| && i != n ==> Mirrors(made[i], heap[i])
    ensures SameHeap(made, heap[n := Advanced(heap[n])])
  {
  }

  lemma MembersMade(stack: Stack, u: Table<nat>, made: seq<DbIterator>)
    requires SameTable(stack.View(), u, made)
    ensures forall it :: it in stack.Members() ==> it in made
  {
    forall it | it in stack.Members() ensures it in made {
      var c, i :| c in stack.iteratorStack && 0 <= i < |stack.iteratorStack[c]| && stack.iteratorStack[c][i] == it;
      assert SameFrame(stack.View().frames[c], u.frames[c], made);
    }
  }

  // ----- the callbacks against numbered tables -----

  /** The scan callback on behalf of one call; hands back the iterator it made as well. */
  method ScanInto(stack: Stack, live: Live, start: Option<Str>, end: Option<Str>, order: Order)
    returns (handle: Handle, ghost it: DbIterator)
    requires stack.Valid()
    modifies stack`iteratorStack
    ensures stack.Valid() && handle == Handle(live.counter, |Frame(old(stack.View()), live.counter)| + 1)
    ensures fresh(it) && it.pos == 0 && it.closes == 0 && it.items == Scan(live.store, start, end, order)
    ensures stack.View() == Stored(old(stack.View()), live.counter, it)
  {
    var ret;
    ret, handle := CScan(stack, live.store, live.counter, start, end, if order == Forward then 1 else 2);
    it :|
      && fresh(it) && it.pos == 0 && it.closes == 0 && it.items == Scan(live.store, start, end, order)
      && stack.View() == Stored(old(stack.View()), live.counter, it);
  }

  /** Opening adds a numbered iterator to the frame and to the heap. */
  method OpenThrough(stack: Stack, live: Live, start: Option<Str>, end: Option<Str>, order: Order,
                     ghost u: Table<nat>, ghost made: seq<DbIterator>, ghost heap: seq<Iter>, ghost c: nat)
    returns (handle: Handle, ghost it: DbIterator)
    requires stack.Valid() && SameTable(stack.View(), u, made) && SameHeap(made, heap)
    modifies stack`iteratorStack
    ensures stack.Valid() && handle == Handle(live.counter, |Frame(u, live.counter)| + 1) && fresh(it)
    ensures SameTable(stack.View(), Stored(u, live.counter, |heap|), made + [it])
    ensures SameHeap(made + [it], heap + [Iter(Scan(live.store, start, end, order), 0, 0, c)])
  {
    ghost var t := stack.View();
    FrameSize(t, u, made, live.counter);
    handle, it := ScanInto(stack, live, start, end, order);
    StoredSame(t, u, made, live.counter, it);
    HeapGrown(made, heap, it, Iter(Scan(live.store, start, end, order), 0, 0, c));
  }

  /** Gives one call an id for a handle; the other calls keep theirs. */
  method Register(calls: seq<Option<Live>>, ghost protocol: seq<Call>, c: nat, handle: Handle) returns (id: Outcome<nat>)
    requires c < |calls| && calls[c].Some? && SameCalls(calls, protocol)
    modifies calls[c].value.context
    ensures id == NewId(protocol[c].ids)
    ensures SameCalls(calls, protocol[c := protocol[c].(ids := Added(protocol[c].ids, handle))])
  {
    assert SameCall(calls[c], protocol[c]);
    id := calls[c].value.context.AddIterator(handle);
    forall d | 0 <= d < |calls| && d != c ensures SameCall(calls[d], protocol[d]) {
      assert old(SameCall(calls[d], protocol[d]));
    }
    OneCallChanged(calls, protocol, protocol[c := protocol[c].(ids := Added(protocol[c].ids, handle))], c);
  }

  /** The numbered iterator behind an id. */
  ghost function Behind(u: Table<nat>, ids: Ids, id: nat): Option<nat> {
    if id in ids && ids[id].dbCounter != 0 then Retrieved(u, ids[id].dbCounter, ids[id].iteratorIndex) else None
  }

  /** `next` moves the iterator behind the id and no other. */
  method NextThrough(stack: Stack, context: Context, id: nat,
                     ghost u: Table<nat>, ghost made: seq<DbIterator>, ghost heap: seq<Iter>)
    returns (r: Outcome<Option<KV>>)
    requires SameTable(stack.View(), u, made) && SameHeap(made, heap)
    modifies made
    ensures match Behind(u, context.iterators, id)
            case None => !r.Ok? && SameHeap(made, heap)
            case Some(n) =>
              n < |heap| && r == Ok(At(heap[n].items, heap[n].pos)) && SameHeap(made, heap[n := Advanced(heap[n])])
  {
    MembersMade(stack, u, made);
    ghost var behind := Behind(u, context.iterators, id);
    if id in context.iterators {
      RetrievedSame(stack.View(), u, made, context.iterators[id].dbCounter, context.iterators[id].iteratorIndex);
    }
    assert behind.Some? ==> Mirrors(made[behind.value], heap[behind.value]);
    r := context.NextOf(stack, id);
    forall i | 0 <= i < |made| && Some(i) != behind ensures Mirrors(made[i], heap[i]) {
      assert old(Mirrors(made[i], heap[i])) && (behind.Some? ==> made[i] != made[behind.value]);
      assert made[i] in stack.Members() ==> unchanged(made[i]);
    }
    if behind.Some? {
      OneIteratorMoved(made, heap, behind.value);
    }
  }

  /** Ending a call pops its frame and closes each numbered iterator in it once. */
  method EndThrough(stack: Stack, counter: nat,
                    ghost u: Table<nat>, ghost made: seq<DbIterator>, ghost heap: seq<Iter>, ghost after: seq<Iter>)
    requires stack.Valid() && SameTable(stack.View(), u, made) && SameHeap(made, heap)
    requires ClosedOnce(heap, after, Frame(u, counter))
    modifies stack`iteratorStack, made
    ensures stack.Valid() && SameTable(stack.View(), Popped(u, counter), made) && SameHeap(made, after)
  {
    ghost var frame, objects := Frame(u, counter), Frame(stack.View(), counter);
    assert SameFrame(objects, frame, made);
    stack.EndContract(counter);
    forall i | 0 <= i < |made| ensures Mirrors(made[i], after[i]) {
      assert old(Mirrors(made[i], heap[i]));
      InFrame(objects, frame, made, i);
    }
  }

  /** A new call joins with a context of its own. */
  method Join(calls: seq<Option<Live>>, ghost protocol: seq<Call>, counter: nat, store: Store) returns (live: Live)
    requires SameCalls(calls, protocol)
    ensures fresh(live.context)
    ensures SameCalls(calls + [Some(live)], protocol + [Running(counter, store, map[])])
  {
    assert forall d :: 0 <= d < |calls| && calls[d].Some? ==> calls[d].value.context in Contexts(calls);
    var context := new Context();
    live := Live(counter, store, context);
    ghost var joined, after := calls + [Some(live)], protocol + [Running(counter, store, map[])];
    forall d | 0 <= d < |joined|
      ensures (joined[d].Some? ==> joined[d].value.context in Contexts(joined)) && SameCall(joined[d], after[d])
    {
      assert d < |calls| ==> old(SameCall(calls[d], protocol[d]));
    }
  }

  /** A call leaves and its context forgets all ids. */
  method Leave(calls: seq<Option<Live>>, ghost protocol: seq<Call>, c: nat)
    requires c < |calls| && calls[c].Some? && SameCalls(calls, protocol)
    modifies calls[c].value.context
    ensures forall left :: SameCalls(calls[c := None], protocol[c := Closing(left)])
  {
    calls[c].value.context.DestroyIterators();
    forall d | 0 <= d < |calls| && d != c ensures SameCall(calls[d], protocol[d]) {
      assert old(SameCall(calls[d], protocol[d]));
    }
    forall left ensures SameCalls(calls[c := None], protocol[c := Closing(left)]) {
      CallEnded(calls, protocol[c := Closing(left)], c);
    }
  }

  /** What ending a call and closing its whole frame does. */
  lemma EndEffect(s: System, c: nat)
    requires IsRunning(s, c)
    requires var frame := Frame(s.table, s.calls[c].counter);
             && (forall i :: 0 <= i < |frame| ==> frame[i] < |s.heap|)
             && forall i, j :: 0 <= i < j < |frame| ==> frame[i] != frame[j]
    ensures HasEnded(s, c, Run(s, [End(c)] + Closes(c, |Pending(s, c)|)))
  {
    var ended := Step(s, End(c));
    ClosesAll(ended, c);
    EndRuns(s, c, |Frame(s.table, s.calls[c].counter)|);
    assert ended.calls[c := Closing([])] == s.calls[c := Closing([])];
  }

  /** The objects represent the system. */
  ghost predicate Represented(stack: Stack, calls: seq<Option<Live>>, made: seq<DbIterator>, s: System)
    reads stack, made, Contexts(calls)
  {
    && stack.Valid()
    && SameTable(stack.View(), s.table, made)
    && SameHeap(made, s.heap)
    && SameCalls(calls, s.calls)
  }

  /** The parts of a system in which call `c` has opened an iterator over `items`. */
  ghost predicate HasOpened(s: System, c: nat, items: seq<KV>, after: System)
    requires IsRunning(s, c)
  {
    var call := s.calls[c];
    && after.table == Stored(s.table, call.counter, |s.heap|)
    && after.heap == s.heap + [Iter(items, 0, 0, c)]
    && after.calls ==
       s.calls[c := call.(ids := Added(call.ids, Handle(call.counter, |Frame(s.table, call.counter)| + 1)))]
  }

  method Opening(stack: Stack, calls: seq<Option<Live>>, c: nat, start: Option<Str>, end: Option<Str>, order: Order,
                 ghost made: seq<DbIterator>, ghost s: System, ghost after: System)
    returns (id: Outcome<nat>, ghost it: DbIterator)
    requires Represented(stack, calls, made, s) && c < |calls| && calls[c].Some? && IsRunning(s, c)
    requires HasOpened(s, c, Scan(calls[c].value.store, start, end, order), after)
    modifies stack`iteratorStack, calls[c].value.context
    ensures Represented(stack, calls, made + [it], after) && id == NewId(s.calls[c].ids)
  {
    assert SameCall(calls[c], s.calls[c]);
    var handle;
    handle, it := OpenThrough(stack, calls[c].value, start, end, order, s.table, made, s.heap, c);
    assert SameCalls(calls, s.calls) && handle == Handle(s.calls[c].counter, |Frame(s.table, s.calls[c].counter)| + 1);
    id := Register(calls, s.calls, c, handle);
    assert SameTable(stack.View(), after.table, made + [it]) && SameHeap(made + [it], after.heap);
  }

  /** The parts of a system in which `next` was called on an id, and what it returned. */
  ghost predicate HasMoved(s: System, c: nat, id: nat, after: System, result: Outcome<Option<KV>>)
    requires IsRunning(s, c)
  {
    && after.table == s.table && after.calls == s.calls
    && match Behind(s.table, s.calls[c].ids, id)
       case None => !result.Ok? && after.heap == s.heap
       case Some(n) =>
         n < |s.heap| ==>
           && result == Ok(At(s.heap[n].items, s.heap[n].pos))
           && after.heap == s.heap[n := Advanced(s.heap[n])]
  }

  lemma StepNext(s: System, c: nat, id: nat)
    requires IsRunning(s, c)
    ensures HasMoved(s, c, id, Step(s, Next(c, id)), Result(s, c, id))
  {
  }

  method Moving(stack: Stack, calls: seq<Option<Live>>, c: nat, id: nat,
                ghost made: seq<DbIterator>, ghost s: System, ghost after: System, ghost result: Outcome<Option<KV>>)
    returns (r: Outcome<Option<KV>>)
    requires Represented(stack, calls, made, s) && c < |calls| && calls[c].Some? && IsRunning(s, c)
    requires HasMoved(s, c, id, after, result)
    modifies made
    ensures Represented(stack, calls, made, after)
    ensures (r.Ok? <==> result.Ok?) && (r.Ok? ==> r == result)
  {
    assert SameCall(calls[c], s.calls[c]);
    r := NextThrough(stack, calls[c].value.context, id, s.table, made, s.heap);
  }

  /** The parts of a system in which call `c` has ended and its iterators are closed. */
  ghost predicate HasEnded(s: System, c: nat, after: System)
    requires IsRunning(s, c)
  {
    var counter := s.calls[c].counter;
    && after.table == Popped(s.table, counter)
    && after.calls == s.calls[c := Closing([])]
    && ClosedOnce(s.heap, after.heap, Frame(s.table, counter))
  }

  method Ending(stack: Stack, calls: seq<Option<Live>>, c: nat,
                ghost made: seq<DbIterator>, ghost s: System, ghost after: System)
    requires Represented(stack, calls, made, s) && c < |calls| && calls[c].Some? && IsRunning(s, c)
    requires HasEnded(s, c, after)
    modifies stack`iteratorStack, made, calls[c].value.context
    ensures Represented(stack, calls[c := None], made, after)
  {
    assert SameCall(calls[c], s.calls[c]);
    EndThrough(stack, calls[c].value.counter, s.table, made, s.heap, after.heap);
    Leave(calls, s.calls, c);
  }

  // ----- the host -----

  class Host {
    const stack: Stack
    /** One entry per call, in the order in which they began; none once it has ended. */
    var calls: seq<Option<Live>>
    /** Every store iterator ever made. */
    ghost var made: seq<DbIterator>
    ghost var system: System

    ghost predicate Valid()
      reads this, stack, made, Contexts(calls)
    {
      Represented(stack, calls, made, system)
    }

    ghost predicate IsLive(c: nat)
      reads this
    {
      c < |calls| && calls[c].Some?
    }

    constructor ()
      ensures Valid() && system == START
    {
      stack := new Stack();
      calls, made, system := [], [], START;
    }

    method DoBegin(store: Store) returns (c: nat)
      requires Valid()
      modifies this, stack
      ensures Valid() && system == Step(old(system), Begin(store)) && c == |old(calls)|
    {
      c := |calls|;
      var counter := stack.StartContract();
      var live := Join(calls, system.calls, counter, store);
      calls := calls + [Some(live)];
      system := Step(system, Begin(store));
    }

    /** Scans a range through the Go callback and registers the iterator with the calling contract. */
    method DoOpen(c: nat, start: Option<Str>, end: Option<Str>, order: Order) returns (id: Outcome<nat>)
      requires Valid() && IsLive(c)
      modifies this, stack, Contexts(calls)
      ensures Valid() && system == Step(old(system), Open(c, start, end, order))
      ensures id == NewId(old(system).calls[c].ids)
    {
      assert SameCall(calls[c], system.calls[c]) && calls[c].value.context in Contexts(calls);
      StepOpen(system, c, start, end, order);
      ghost var after := Step(system, Open(c, start, end, order));
      ghost var it;
      id, it := Opening(stack, calls, c, start, end, order, made, system, after);
      made, system := made + [it], after;
    }

    /** `next` on an id, through the Rust table, the Go table and the store iterator. */
    method DoNext(c: nat, id: nat) returns (r: Outcome<Option<KV>>)
      requires Valid() && IsLive(c)
      modifies this, made
      ensures Valid() && system == Step(old(system), Next(c, id))
      ensures r.Ok? <==> Result(old(system), c, id).Ok?
      ensures r.Ok? ==> r == Result(old(system), c, id)
    {
      assert SameCall(calls[c], system.calls[c]) && calls[c].value.context in Contexts(calls);
      StepNext(system, c, id);
      ghost var after := Step(system, Next(c, id));
      r := Moving(stack, calls, c, id, made, system, after, Result(system, c, id));
      system := after;
    }

    /** Ends a call: its frame is popped and each iterator in it closed, and its ids are forgotten. */
    method DoEnd(c: nat)
      requires Valid() && IsLive(c)
      modifies this, stack, made, Contexts(calls)
      ensures Valid()
      ensures system == Run(old(system), [End(c)] + Closes(c, |Pending(old(system), c)|))
      ensures calls == old(calls)[c := None]
    {
      assert SameCall(calls[c], system.calls[c]) && calls[c].value.context in Contexts(calls);
      FrameDistinct(stack.View(), system.table, made, calls[c].value.counter);
      EndEffect(system, c);
      ghost var after := Run(system, [End(c)] + Closes(c, |Pending(system, c)|));
      Ending(stack, calls, c, made, system, after);
      calls, system := calls[c := None], after;
    }
  }
}
