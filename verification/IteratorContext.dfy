/** The Rust side of iterator handles: the table of ids one contract instance holds, and the iterator that
    forwards to Go. */
module IteratorContext {
  import opened Outcomes
  import opened KvScan
  import opened IteratorStack

  const I32_MAX: nat := 0x7FFF_FFFF

  type Ids = map<nat, Handle>

  /** The id the next iterator gets; ids beyond i32::MAX panic. */
  function NewId(ids: Ids): Outcome<nat> {
    if |ids| + 1 > I32_MAX then Panic else Ok(|ids| + 1)
  }

  function Added(ids: Ids, iter: Handle): Ids {
    if NewId(ids).Ok? then ids[NewId(ids).value := iter] else ids
  }

  /** Reads what Go left in the buffers: no key means the end. */
  method GoIterNext(stack: Stack, state: Handle) returns (r: Outcome<Option<KV>>)
    modifies stack.Members()
    ensures state.dbCounter == 0 ==> !r.Ok?
    ensures state.dbCounter != 0 && Retrieved(stack.View(), state.dbCounter, state.iteratorIndex).None? ==> !r.Ok?
    ensures state.dbCounter != 0 && Retrieved(stack.View(), state.dbCounter, state.iteratorIndex).Some? ==>
              var iter := Retrieved(stack.View(), state.dbCounter, state.iteratorIndex).value;
              && r == Ok(if old(iter.pos) < |iter.items| then Some(iter.items[old(iter.pos)]) else None)
              && iter.pos == old(iter.pos) + (if old(iter.pos) < |iter.items| then 1 else 0)
              && iter.closes == old(iter.closes)
              && forall it :: it in stack.Members() && it != iter ==> unchanged(it)
    ensures !r.Ok? ==> forall it :: it in stack.Members() ==> unchanged(it)
  {
    var ret, key, val := CNext(stack, state);
    if ret != GoOk {
      return Err(GenericErr("Failed to fetch next item from iterator"));
    }
    if key.None? {
      return Ok(None);
    }
    return Ok(Some(KV(key.value, val.value)));
  }

  class Context {
    var iterators: Ids

    constructor ()
      ensures iterators == map[]
    {
      iterators := map[];
    }

    method AddIterator(iter: Handle) returns (id: Outcome<nat>)
      modifies this
      ensures id == NewId(old(iterators)) && iterators == Added(old(iterators), iter)
      ensures |old(iterators)| < 0x7FFF_FFFF ==>
                id == Ok(|old(iterators)| + 1) && iterators == old(iterators)[|old(iterators)| + 1 := iter]
      ensures |old(iterators)| >= 0x7FFF_FFFF ==> id == Panic && iterators == old(iterators)
    {
      var newId := |iterators| + 1;
      if newId > I32_MAX {
        return Panic;
      }
      iterators := iterators[newId := iter];
      return Ok(newId);
    }

    /** Runs `next` on the iterator with this id; an unknown id is an error. */
    method NextOf(stack: Stack, id: nat) returns (r: Outcome<Option<KV>>)
      modifies stack.Members()
      ensures id !in iterators ==> !r.Ok?
      ensures id in iterators && iterators[id].dbCounter == 0 ==> !r.Ok?
      ensures id in iterators && Retrieved(stack.View(), iterators[id].dbCounter, iterators[id].iteratorIndex).None? ==>
                !r.Ok?
      ensures id in iterators && iterators[id].dbCounter != 0 &&
              Retrieved(stack.View(), iterators[id].dbCounter, iterators[id].iteratorIndex).Some? ==>
                var iter := Retrieved(stack.View(), iterators[id].dbCounter, iterators[id].iteratorIndex).value;
                && r == Ok(if old(iter.pos) < |iter.items| then Some(iter.items[old(iter.pos)]) else None)
                && iter.pos == old(iter.pos) + (if old(iter.pos) < |iter.items| then 1 else 0)
                && iter.closes == old(iter.closes)
                && forall it :: it in stack.Members() && it != iter ==> unchanged(it)
      ensures !r.Ok? ==> forall it :: it in stack.Members() ==> unchanged(it)
    {
      if id !in iterators {
        return Err(GenericErr("iterator does not exist"));
      }
      r := GoIterNext(stack, iterators[id]);
    }

    method DestroyIterators()
      modifies this
      ensures iterators == map[]
    {
      iterators := map[];
    }
  }
}
