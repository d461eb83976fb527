/** The Go side of iterator handles: a global table of frames, one per running contract call, and the
    callbacks that open and advance store iterators through it. */
module IteratorStack {
  import opened Outcomes
  import opened Uint128
  import opened Lexicographic
  import opened KvScan

  // ----- the table as a value; `I` stands for whatever an iterator is -----

  datatype Table<I> = Table(counter: nat, frames: map<nat, seq<I>>)

  /** The frame of a call; a missing frame reads as empty. */
  function Frame<I>(t: Table<I>, c: nat): seq<I> {
    if c in t.frames then t.frames[c] else []
  }

  /** The counter is a uint64 and wraps around. */
  function Started<I>(t: Table<I>): Table<I> {
    t.(counter := (t.counter + 1) % TWO_64)
  }

  function Stored<I>(t: Table<I>, c: nat, it: I): Table<I> {
    t.(frames := t.frames[c := Frame(t, c) + [it]])
  }

  /** Indices count from 1; anything else is an out-of-range panic. */
  function Retrieved<I>(t: Table<I>, c: nat, index: nat): Option<I> {
    if 1 <= index <= |Frame(t, c)| then Some(Frame(t, c)[index - 1]) else None
  }

  function Popped<I>(t: Table<I>, c: nat): Table<I> {
    t.(frames := t.frames - {c})
  }

  // ----- the table in memory -----

  /** An iterator of the underlying store: its entries, a position, and how often it was closed. */
  class DbIterator {
    const items: seq<KV>
    var pos: nat
    var closes: nat

    constructor (items: seq<KV>)
      ensures this.items == items && pos == 0 && closes == 0
    {
      this.items := items;
      pos, closes := 0, 0;
    }

    method Close()
      modifies this`closes
      ensures closes == old(closes) + 1
    {
      closes := closes + 1;
    }
  }

  /** No iterator is stored in two places. */
  ghost predicate StoredOnce(frames: map<nat, seq<DbIterator>>) {
    forall c, i, d, j ::
      (c in frames && 0 <= i < |frames[c]| && d in frames && 0 <= j < |frames[d]| && frames[c][i] == frames[d][j]) ==>
        c == d && i == j
  }

  lemma StoredOnceMore(t: Table<DbIterator>, counter: nat, it: DbIterator)
    requires StoredOnce(t.frames)
    requires forall c, i :: c in t.frames && 0 <= i < |t.frames[c]| ==> t.frames[c][i] != it
    ensures StoredOnce(Stored(t, counter, it).frames)
  {
    var frames, n := Stored(t, counter, it).frames, |Frame(t, counter)|;
    forall c, i | c in frames && 0 <= i < |frames[c]| && !(c == counter && i == n)
      ensures c in t.frames && i < |t.frames[c]| && frames[c][i] == t.frames[c][i]
    {
    }
    assert frames[counter][n] == it;
  }

  class Stack {
    var dbCounter: nat
    var iteratorStack: map<nat, seq<DbIterator>>

    function View(): Table<DbIterator>
      reads this
    {
      Table(dbCounter, iteratorStack)
    }

    function Members(): set<DbIterator>
      reads this
    {
      set c, i | c in iteratorStack && 0 <= i < |iteratorStack[c]| :: iteratorStack[c][i]
    }

    ghost predicate Valid()
      reads this
    {
      StoredOnce(iteratorStack)
    }

    constructor ()
      ensures Valid() && View() == Table(0, map[])
    {
      dbCounter, iteratorStack := 0, map[];
    }

    method StartContract() returns (counter: nat)
      modifies this`dbCounter
      ensures View() == Started(old(View())) && counter == dbCounter
      ensures counter == (old(dbCounter) + 1) % 0x1_0000_0000_0000_0000
    {
      dbCounter := (dbCounter + 1) % TWO_64;
      counter := dbCounter;
    }

    method PopFrame(counter: nat) returns (remove: seq<DbIterator>)
      modifies this`iteratorStack
      ensures View() == Popped(old(View()), counter) && remove == Frame(old(View()), counter)
    {
      remove := if counter in iteratorStack then iteratorStack[counter] else [];
      iteratorStack := iteratorStack - {counter};
    }

    /** Closes every iterator of the frame, each exactly once, and no other. */
    method EndContract(counter: nat)
      requires Valid()
      modifies this`iteratorStack, Frame(View(), counter)
      ensures Valid() && View() == Popped(old(View()), counter)
      ensures forall it :: it in Frame(old(View()), counter) ==>
                             it.closes == old(it.closes) + 1 && it.pos == old(it.pos)
    {
      var remove := PopFrame(counter);
      for n := 0 to |remove|
        invariant remove == Frame(old(View()), counter)
        invariant View() == Popped(old(View()), counter)
        invariant forall k :: 0 <= k < |remove| ==>
                                remove[k].closes == old(remove[k].closes) + (if k < n then 1 else 0)
        invariant forall k :: 0 <= k < |remove| ==> remove[k].pos == old(remove[k].pos)
      {
        remove[n].Close();
      }
    }

    method StoreIterator(counter: nat, it: DbIterator) returns (index: nat)
      modifies this`iteratorStack
      ensures View() == Stored(old(View()), counter, it)
      ensures old(Valid()) && it !in old(Members()) ==> Valid()
      ensures index == |Frame(View(), counter)| && Retrieved(View(), counter, index) == Some(it)
    {
      var frame := (if counter in iteratorStack then iteratorStack[counter] else []) + [it];
      assert forall c, i :: c in iteratorStack && 0 <= i < |iteratorStack[c]| ==> iteratorStack[c][i] in Members();
      if Valid() && it !in Members() {
        StoredOnceMore(View(), counter, it);
      }
      iteratorStack := iteratorStack[counter := frame];
      index := |frame|;
    }

    method RetrieveIterator(counter: nat, index: nat) returns (it: Option<DbIterator>)
      ensures it == Retrieved(View(), counter, index)
    {
      var frame := if counter in iteratorStack then iteratorStack[counter] else [];
      it := if 1 <= index <= |frame| then Some(frame[index - 1]) else None;
    }
  }

  // ----- the callbacks -----

  datatype GoResult = GoOk | GoPanic | GoBadArgument

  /** The handle Rust keeps: which frame, and which iterator in it. Both start at zero. */
  datatype Handle = Handle(dbCounter: nat, iteratorIndex: nat)

  /** The store's own iterators, in either direction. */
  method OpenIterator(kv: Store, start: Option<Str>, end: Option<Str>, order: Order) returns (iter: DbIterator)
    ensures fresh(iter) && iter.pos == 0 && iter.closes == 0 && iter.items == Scan(kv, start, end, order)
  {
    var keys := SortKeys(Selected(kv, start, end));
    var entries := Entries(kv, keys);
    iter := new DbIterator(if order == Forward then entries else Reverse(entries));
  }

  /** Opens an iterator and stores it in the frame of the calling contract. */
  method CScan(stack: Stack, kv: Store, counter: nat, start: Option<Str>, end: Option<Str>, order: int)
    returns (ret: GoResult, out: Handle)
    requires stack.Valid()
    modifies stack`iteratorStack
    ensures stack.Valid()
    ensures order != 1 && order != 2 ==> ret == GoBadArgument && stack.View() == old(stack.View())
    ensures order == 1 || order == 2 ==>
              && ret == GoOk
              && out == Handle(counter, |Frame(old(stack.View()), counter)| + 1)
              && exists iter: DbIterator ::
                   && fresh(iter) && iter.pos == 0 && iter.closes == 0
                   && iter.items == Scan(kv, start, end, if order == 1 then Forward else Backward)
                   && stack.View() == Stored(old(stack.View()), counter, iter)
  {
    out := Handle(0, 0);
    if order != 1 && order != 2 {
      return GoBadArgument, out;
    }
    var iter := OpenIterator(kv, start, end, if order == 1 then Forward else Backward);
    var index := stack.StoreIterator(counter, iter);
    return GoOk, Handle(counter, index);
  }

  /** Hands out the current entry and moves on; past the end it hands out nothing and stays there. */
  method CNext(stack: Stack, ref: Handle) returns (ret: GoResult, key: Option<Str>, val: Option<Str>)
    modifies stack.Members()
    ensures ref.dbCounter == 0 ==> ret == GoBadArgument
    ensures ref.dbCounter != 0 && Retrieved(stack.View(), ref.dbCounter, ref.iteratorIndex).None? ==> ret == GoPanic
    ensures ret != GoOk ==> key.None? && forall it :: it in stack.Members() ==> unchanged(it)
    ensures ref.dbCounter != 0 && Retrieved(stack.View(), ref.dbCounter, ref.iteratorIndex).Some? ==>
              var iter := Retrieved(stack.View(), ref.dbCounter, ref.iteratorIndex).value;
              && ret == GoOk
              && (if old(iter.pos) < |iter.items| then
                    && key == Some(iter.items[old(iter.pos)].key)
                    && val == Some(iter.items[old(iter.pos)].value)
                    && iter.pos == old(iter.pos) + 1
                  else key.None? && iter.pos == old(iter.pos))
              && iter.closes == old(iter.closes)
              && forall it :: it in stack.Members() && it != iter ==> unchanged(it)
  {
    key, val := None, None;
    if ref.dbCounter == 0 {
      return GoBadArgument, key, val;
    }
    var found := stack.RetrieveIterator(ref.dbCounter, ref.iteratorIndex);
    if found.None? {
      return GoPanic, key, val;
    }
    var iter := found.value;
    assert iter == stack.iteratorStack[ref.dbCounter][ref.iteratorIndex - 1];
    if iter.pos >= |iter.items| {
      return GoOk, key, val;
    }
    key, val := Some(iter.items[iter.pos].key), Some(iter.items[iter.pos].value);
    iter.pos := iter.pos + 1;
    return GoOk, key, val;
  }
}
