/** What a range scan of a key-value store must yield: the store's own contract, in ascending or
    descending key order, start included and end excluded. Keys and values are byte strings. */
module KvScan {
  import opened Outcomes
  import opened Lexicographic

  datatype KV = KV(key: Str, value: Str)
  type Store = map<Str, Str>

  datatype Order = Forward | Backward

  predicate InRange(k: Str, start: Option<Str>, end: Option<Str>) {
    && (start.Some? ==> !Less(k, start.value))
    && (end.Some? ==> Less(k, end.value))
  }

  function Selected(store: Store, start: Option<Str>, end: Option<Str>): set<Str> {
    set k | k in store && InRange(k, start, end)
  }

  function Entries(store: Store, keys: seq<Str>): seq<KV>
    requires forall k :: k in keys ==> k in store
  {
    seq(|keys|, i requires 0 <= i < |keys| => KV(keys[i], store[keys[i]]))
  }

  function Reverse<T>(s: seq<T>): seq<T> {
    seq(|s|, i requires 0 <= i < |s| => s[|s| - 1 - i])
  }

  ghost function Scan(store: Store, start: Option<Str>, end: Option<Str>, order: Order): seq<KV> {
    var entries := Entries(store, Sorted(Selected(store, start, end)));
    if order == Forward then entries else Reverse(entries)
  }

  lemma ReverseElements(s: seq<KV>)
    ensures |Reverse(s)| == |s| && forall x :: x in Reverse(s) <==> x in s
  {
    forall i | 0 <= i < |s| ensures s[i] in Reverse(s) {
      assert Reverse(s)[|s| - 1 - i] == s[i];
    }
  }

  lemma EntriesElements(store: Store, keys: seq<Str>)
    requires forall k :: k in keys ==> k in store
    ensures forall kv: KV :: kv in Entries(store, keys) <==> kv.key in keys && store[kv.key] == kv.value
  {
    forall i | 0 <= i < |keys| ensures KV(keys[i], store[keys[i]]) in Entries(store, keys) {
      assert Entries(store, keys)[i] == KV(keys[i], store[keys[i]]);
    }
  }

  ghost predicate InOrder(items: seq<KV>, order: Order) {
    forall i, j :: 0 <= i < j < |items| ==>
      if order == Forward then Less(items[i].key, items[j].key) else Less(items[j].key, items[i].key)
  }

  /** Exactly the stored entries in the range, in strict key order, hence without skips or repeats. */
  lemma ScanExact(store: Store, start: Option<Str>, end: Option<Str>, order: Order)
    ensures forall kv: KV :: kv in Scan(store, start, end, order) <==>
              kv.key in store && store[kv.key] == kv.value && InRange(kv.key, start, end)
    ensures InOrder(Scan(store, start, end, order), order)
  {
    var keys := Sorted(Selected(store, start, end));
    EntriesElements(store, keys);
    ReverseElements(Entries(store, keys));
  }

  /** A stored start key is handed out, unless it is also beyond the end; a stored end key is not. */
  lemma RangeEnds(store: Store, start: Str, end: Str, order: Order)
    ensures start in store ==> KV(start, store[start]) in Scan(store, Some(start), None, order)
    ensures start in store && Less(start, end) ==> KV(start, store[start]) in Scan(store, Some(start), Some(end), order)
    ensures forall kv: KV :: kv in Scan(store, Some(start), Some(end), order) ==> kv.key != end
    ensures forall kv: KV :: kv in Scan(store, None, Some(end), order) ==> kv.key != end
  {
    LessIrreflexive(start);
    LessIrreflexive(end);
    ScanExact(store, Some(start), None, order);
    ScanExact(store, Some(start), Some(end), order);
    ScanExact(store, None, Some(end), order);
  }
}
