/** The token-swap module: records of burns, minting for each of them, and the genesis import and export of
    the records. The bank's answers to minting and sending are inputs. */
module TokenSwap {
  import opened Sums
  import opened Lexicographic
  import opened Minting

  type Hash = Str
  type Account = Str

  datatype Record = Record(burnTxHash: Hash, ethereumSender: Str, receiver: Account, amount: nat, done: bool)

  /** `amountENG` is a `Dec`, scaled by 10^18. */
  datatype Request = Request(burnTxHash: Hash, ethereumSender: Str, receiver: Account, amountENG: int, signer: Account)

  datatype Params = Params(approver: Account, multiplier: nat, enabled: bool)

  datatype Payment = Payment(burnTxHash: Hash, receiver: Account, amount: nat)

  /** Records, coins minted so far, coins held by the module's own account, and all payments made. */
  datatype State = State(params: Params, records: map<Hash, Record>, minted: nat, held: nat, payments: seq<Payment>)

  function Started(p: Params, req: Request): Record
    requires ValidAmount(req.amountENG)
  {
    Record(req.burnTxHash, req.ethereumSender, req.receiver, Minted(req.amountENG, p.multiplier), false)
  }

  function WithRecord(s: State, r: Record): State {
    s.(records := s.records[r.burnTxHash := r])
  }

  /** May this request be processed: swapping is enabled, the signer is the approver, and there is no
      completed record for the burn. */
  predicate Admitted(s: State, req: Request) {
    && s.params.enabled
    && req.signer == s.params.approver
    && (req.burnTxHash in s.records ==> !s.records[req.burnTxHash].done)
  }

  /** The state after processing a request, also when it stops half way, and whether it succeeded. */
  function Processed(s: State, req: Request, mintOk: bool, sendOk: bool): (State, bool)
    requires ValidAmount(req.amountENG)
  {
    var r := Started(s.params, req);
    var started := WithRecord(s, r);
    if !mintOk then (started, false)
    else
      var funded := started.(minted := s.minted + r.amount, held := s.held + r.amount);
      if !sendOk then (funded, false)
      else
        (WithRecord(funded.(held := s.held, payments := s.payments + [Payment(r.burnTxHash, r.receiver, r.amount)]),
                    r.(done := true)), true)
  }

  /** What the handler makes of a request: it processes the admitted ones only. */
  function Handled(s: State, req: Request, mintOk: bool, sendOk: bool): (State, bool)
    requires ValidAmount(req.amountENG)
  {
    if Admitted(s, req) then Processed(s, req, mintOk, sendOk) else (s, false)
  }

  // ----- the keeper and the handler as they run -----

  class Keeper {
    var params: Params
    var store: map<Hash, Record>
    var minted: nat
    var held: nat
    var payments: seq<Payment>

    function View(): State
      reads this
    {
      State(params, store, minted, held, payments)
    }

    constructor (params: Params)
      ensures View() == State(params, map[], 0, 0, [])
    {
      this.params := params;
      store, minted, held, payments := map[], 0, 0, [];
    }

    method SetSwap(swap: Record)
      modifies this`store
      ensures View() == WithRecord(old(View()), swap)
    {
      store := store[swap.burnTxHash := swap];
    }

    method MintCoins(amount: nat, ok: bool) returns (succeeded: bool)
      modifies this`minted, this`held
      ensures succeeded == ok
      ensures minted == old(minted) + (if ok then amount else 0) && held == old(held) + (if ok then amount else 0)
    {
      if ok {
        minted, held := minted + amount, held + amount;
      }
      return ok;
    }

    method SendCoins(hash: Hash, receiver: Account, amount: nat, ok: bool) returns (succeeded: bool)
      requires amount <= held
      modifies this`held, this`payments
      ensures succeeded == ok
      ensures held == old(held) - (if ok then amount else 0)
      ensures payments == if ok then old(payments) + [Payment(hash, receiver, amount)] else old(payments)
    {
      if ok {
        held := held - amount;
        payments := payments + [Payment(hash, receiver, amount)];
      }
      return ok;
    }

    method ProcessTokenSwapRequest(request: Request, mintOk: bool, sendOk: bool) returns (ok: bool)
      requires ValidAmount(request.amountENG)
      modifies this
      ensures (View(), ok) == Processed(old(View()), request, mintOk, sendOk)
    {
      var amount := Minted(request.amountENG, params.multiplier);
      var tokenSwap := Record(request.burnTxHash, request.ethereumSender, request.receiver, amount, false);
      SetSwap(tokenSwap);
      var done := MintCoins(tokenSwap.amount, mintOk);
      if !done {
        return false;
      }
      done := SendCoins(tokenSwap.burnTxHash, tokenSwap.receiver, tokenSwap.amount, sendOk);
      if !done {
        return false;
      }
      tokenSwap := tokenSwap.(done := true);
      SetSwap(tokenSwap);
      return true;
    }

    method HandleMsgTokenSwap(msg: Request, mintOk: bool, sendOk: bool) returns (ok: bool)
      requires ValidAmount(msg.amountENG)
      modifies this
      ensures (View(), ok) == Handled(old(View()), msg, mintOk, sendOk)
      ensures ok <==>
              && old(params).enabled && msg.signer == old(params).approver
              && !(msg.burnTxHash in old(store) && old(store)[msg.burnTxHash].done)
              && mintOk && sendOk
      ensures !old(params).enabled || msg.signer != old(params).approver ==> View() == old(View())
      ensures msg.burnTxHash in old(store) && old(store)[msg.burnTxHash].done ==> View() == old(View())
    {
      if !params.enabled {
        return false;
      }
      if msg.signer != params.approver {
        return false;
      }
      if msg.burnTxHash in store && store[msg.burnTxHash].done {
        return false;
      }
      ok := ProcessTokenSwapRequest(msg, mintOk, sendOk);
    }

    /** Installs an empty module account, the parameters and every record. */
    method InitGenesis(data: Params, swaps: seq<Record>)
      modifies this`params, this`store, this`held
      ensures View() == old(View()).(params := data, records := Imported(old(store), swaps), held := 0)
    {
      held := 0;
      params := data;
      for i := 0 to |swaps|
        invariant params == data && minted == old(minted) && held == 0 && payments == old(payments)
        invariant Imported(store, swaps[i..]) == Imported(old(store), swaps)
      {
        SetSwap(swaps[i]);
        assert swaps[i..][1..] == swaps[i + 1..];
      }
    }

    /** All records, in the key order of the store's iterator. */
    method ExportGenesis() returns (data: Params, swaps: seq<Record>)
      ensures data == params && swaps == Exported(store)
    {
      var keys := SortKeys(store.Keys);
      swaps := Collect(store, keys);
      data := params;
    }
  }

  /** The loop of the export, over the keys the iterator visits. */
  method Collect(records: map<Hash, Record>, keys: seq<Hash>) returns (swaps: seq<Record>)
    requires forall k :: k in keys ==> k in records
    ensures swaps == Under(records, keys)
  {
    swaps := [];
    for i := 0 to |keys|
      invariant |swaps| == i && forall j :: 0 <= j < i ==> swaps[j] == records[keys[j]]
    {
      swaps := swaps + [records[keys[i]]];
    }
  }

  // ----- runs -----

  datatype Event =
    | Swap(req: Request, mintOk: bool, sendOk: bool)
    | ChangeParams(params: Params)

  /** One event; with `rollback` the chain undoes a failed request. Requests that fail validation are never
      delivered. */
  function Step(s: State, e: Event, rollback: bool): State {
    match e
    case ChangeParams(p) => s.(params := p)
    case Swap(req, mintOk, sendOk) =>
      if !ValidAmount(req.amountENG) then s
      else
        var (after, ok) := Handled(s, req, mintOk, sendOk);
        if rollback && !ok then s else after
  }

  function Run(s: State, es: seq<Event>, rollback: bool): State
    decreases |es|
  {
    if es == [] then s else Run(Step(s, es[0], rollback), es[1..], rollback)
  }

  function PaidFor(payments: seq<Payment>, h: Hash): nat {
    if payments == [] then 0 else (if payments[0].burnTxHash == h then 1 else 0) + PaidFor(payments[1..], h)
  }

  lemma {:induction false} PaidForAppend(payments: seq<Payment>, p: Payment, h: Hash)
    ensures PaidFor(payments + [p], h) == PaidFor(payments, h) + (if p.burnTxHash == h then 1 else 0)
  {
    if payments == [] {
      assert [p][1..] == [];
    } else {
      PaidForAppend(payments[1..], p, h);
      assert (payments + [p])[1..] == payments[1..] + [p];
    }
  }

  predicate Done(s: State, h: Hash) {
    h in s.records && s.records[h].done
  }

  /** Records sit under their own hash, and a burn has been paid once if its record is done, else never. */
  ghost predicate BurnOk(s: State, h: Hash) {
    && (h in s.records ==> s.records[h].burnTxHash == h)
    && PaidFor(s.payments, h) == (if Done(s, h) then 1 else 0)
  }

  /** The completed amounts, record by record. */
  function DoneAmounts(records: map<Hash, Record>): map<Hash, nat> {
    map h | h in records :: if records[h].done then records[h].amount else 0
  }

  /** What was minted is what completed records say, plus what is stuck in the module account. */
  ghost predicate CoinsOk(s: State, rollback: bool) {
    && s.minted == Sum(DoneAmounts(s.records)) + s.held
    && (rollback ==> s.held == 0)
  }

  /** A payment went to the receiver and over the amount of the completed record of its burn. */
  ghost predicate PaymentOk(s: State, p: Payment) {
    && Done(s, p.burnTxHash)
    && s.records[p.burnTxHash].receiver == p.receiver
    && s.records[p.burnTxHash].amount == p.amount
  }

  ghost predicate Inv(s: State, rollback: bool) {
    && (forall h :: BurnOk(s, h))
    && (forall p :: p in s.payments ==> PaymentOk(s, p))
    && CoinsOk(s, rollback)
  }

  lemma RecordUpdate(records: map<Hash, Record>, r: Record)
    ensures Sum(DoneAmounts(records[r.burnTxHash := r])) ==
            Sum(DoneAmounts(records)) - Get(DoneAmounts(records), r.burnTxHash) + (if r.done then r.amount else 0)
  {
    var h, v := r.burnTxHash, if r.done then r.amount else 0;
    assert DoneAmounts(records[h := r]) == DoneAmounts(records)[h := v];
    SumUpdate(DoneAmounts(records), h, v);
  }

  lemma HandledKeeps(s: State, req: Request, mintOk: bool, sendOk: bool)
    requires Inv(s, false) && ValidAmount(req.amountENG)
    ensures var (after, ok) := Handled(s, req, mintOk, sendOk);
            Inv(after, false) && (ok ==> after.held == s.held)
  {
    var (after, ok) := Handled(s, req, mintOk, sendOk);
    if Admitted(s, req) {
      var h, r := req.burnTxHash, Started(s.params, req);
      assert BurnOk(s, h);
      RecordUpdate(s.records, r);
      RecordUpdate(s.records[h := r], r.(done := true));
      forall k ensures BurnOk(after, k) {
        assert BurnOk(s, k);
        PaidForAppend(s.payments, Payment(h, r.receiver, r.amount), k);
      }
      forall p | p in after.payments ensures PaymentOk(after, p) {
        assert p in s.payments ==> PaymentOk(s, p);
      }
    }
  }

  /** Who may swap: a request succeeds exactly when swapping is enabled, the approver signed it, the burn is not
      done and the bank agrees. It then pays the receiver it names, at the current rate. When one of the first
      three fails, nothing changes at all. */
  lemma HandledPays(s: State, req: Request, mintOk: bool, sendOk: bool)
    requires ValidAmount(req.amountENG)
    ensures var (after, ok) := Handled(s, req, mintOk, sendOk);
            var payment := Payment(req.burnTxHash, req.receiver, Minted(req.amountENG, s.params.multiplier));
            var allowed := s.params.enabled && req.signer == s.params.approver && !Done(s, req.burnTxHash);
            && (ok <==> allowed && mintOk && sendOk)
            && (!allowed ==> after == s)
            && after.payments == (if ok then s.payments + [payment] else s.payments)
            && after.minted == s.minted + (if allowed && mintOk then payment.amount else 0)
            && (ok <==> !Done(s, req.burnTxHash) && Done(after, req.burnTxHash))
            && (allowed ==>
                  after.records == s.records[req.burnTxHash :=
                    Record(req.burnTxHash, req.ethereumSender, req.receiver, payment.amount, ok)])
  {
  }

  lemma StepKeeps(s: State, e: Event, rollback: bool)
    requires Inv(s, rollback)
    ensures Inv(Step(s, e, rollback), rollback)
  {
    match e
    case ChangeParams(_) =>
      forall h ensures BurnOk(Step(s, e, rollback), h) {
        assert BurnOk(s, h);
      }
      forall p | p in s.payments ensures PaymentOk(Step(s, e, rollback), p) {
        assert PaymentOk(s, p);
      }
    case Swap(req, mintOk, sendOk) =>
      if ValidAmount(req.amountENG) {
        HandledKeeps(s, req, mintOk, sendOk);
      }
  }

  /** A completed record never changes again, in one step. */
  lemma DoneIsFinal(s: State, e: Event, rollback: bool, h: Hash)
    requires Done(s, h)
    ensures h in Step(s, e, rollback).records && Step(s, e, rollback).records[h] == s.records[h]
  {
  }

  lemma {:induction false} RunKeeps(s: State, es: seq<Event>, rollback: bool)
    requires Inv(s, rollback)
    ensures Inv(Run(s, es, rollback), rollback)
    ensures forall h :: Done(s, h) ==> h in Run(s, es, rollback).records && Run(s, es, rollback).records[h] == s.records[h]
    decreases |es|
  {
    if es != [] {
      var next := Step(s, es[0], rollback);
      StepKeeps(s, es[0], rollback);
      RunKeeps(next, es[1..], rollback);
      forall h | Done(s, h)
        ensures h in Run(s, es, rollback).records && Run(s, es, rollback).records[h] == s.records[h]
      {
        DoneIsFinal(s, es[0], rollback, h);
      }
    }
  }

  /** Over every run of requests, failures, retries and parameter changes: each burn is paid at most once,
      and exactly once when its record is complete; without failures left behind, the coins minted are
      exactly those of the completed records, otherwise the difference sits in the module account. */
  lemma ReplayProtection(p: Params, es: seq<Event>, rollback: bool)
    ensures var s := Run(State(p, map[], 0, 0, []), es, rollback);
            && (forall h :: PaidFor(s.payments, h) == (if Done(s, h) then 1 else 0))
            && (forall p :: p in s.payments ==> PaymentOk(s, p))
            && s.minted == Sum(DoneAmounts(s.records)) + s.held
            && (rollback ==> s.held == 0)
            && (forall h :: h in s.records ==> s.records[h].burnTxHash == h)
  {
    RunKeeps(State(p, map[], 0, 0, []), es, rollback);
    var s := Run(State(p, map[], 0, 0, []), es, rollback);
    forall h ensures PaidFor(s.payments, h) == (if Done(s, h) then 1 else 0) &&
                     (h in s.records ==> s.records[h].burnTxHash == h)
    {
      assert BurnOk(s, h);
    }
  }

  // ----- genesis -----

  function Imported(records: map<Hash, Record>, swaps: seq<Record>): map<Hash, Record>
    decreases |swaps|
  {
    if swaps == [] then records else Imported(records[swaps[0].burnTxHash := swaps[0]], swaps[1..])
  }

  ghost function Exported(records: map<Hash, Record>): seq<Record> {
    Under(records, Sorted(records.Keys))
  }

  /** The records under the given keys, in their order. */
  function Under(records: map<Hash, Record>, keys: seq<Hash>): seq<Record>
    requires forall k :: k in keys ==> k in records
  {
    seq(|keys|, i requires 0 <= i < |keys| => records[keys[i]])
  }

  /** Importing records with different hashes keeps each of them and everything else. */
  lemma {:induction false} ImportedExact(records: map<Hash, Record>, swaps: seq<Record>)
    requires forall i, j :: 0 <= i < j < |swaps| ==> swaps[i].burnTxHash != swaps[j].burnTxHash
    ensures var after := Imported(records, swaps);
            && (forall i :: 0 <= i < |swaps| ==>
                  swaps[i].burnTxHash in after && after[swaps[i].burnTxHash] == swaps[i])
            && (forall h :: (forall i :: 0 <= i < |swaps| ==> swaps[i].burnTxHash != h) ==>
                  (h in after <==> h in records) && (h in records ==> after[h] == records[h]))
    decreases |swaps|
  {
    if swaps != [] {
      var first, rest := swaps[0], swaps[1..];
      ImportedExact(records[first.burnTxHash := first], rest);
      assert forall i :: 0 < i < |swaps| ==> swaps[i] == rest[i - 1];
    }
  }

  /** Every record sits under its own hash. */
  ghost predicate Keyed(records: map<Hash, Record>) {
    forall h :: h in records ==> records[h].burnTxHash == h
  }

  lemma ExportedDistinct(records: map<Hash, Record>)
    requires Keyed(records)
    ensures var swaps := Exported(records);
            forall i, j :: 0 <= i < j < |swaps| ==> swaps[i].burnTxHash != swaps[j].burnTxHash
  {
    var keys, swaps := Sorted(records.Keys), Exported(records);
    forall i, j | 0 <= i < j < |swaps| ensures swaps[i].burnTxHash != swaps[j].burnTxHash {
      assert keys[i] in keys && keys[j] in keys && Less(keys[i], keys[j]);
      LessIrreflexive(keys[i]);
    }
  }

  lemma ExportedElements(records: map<Hash, Record>, h: Hash)
    requires Keyed(records)
    ensures var swaps := Exported(records);
            if h in records then exists i :: 0 <= i < |swaps| && swaps[i] == records[h]
            else forall i :: 0 <= i < |swaps| ==> swaps[i].burnTxHash != h
  {
    var keys, swaps := Sorted(records.Keys), Exported(records);
    if h in records {
      assert h in keys;
      var i :| 0 <= i < |keys| && keys[i] == h;
      assert swaps[i] == records[h];
    } else {
      assert forall i :: 0 <= i < |keys| ==> keys[i] in keys && swaps[i] == records[keys[i]];
    }
  }

  /** Import after export restores every record. */
  lemma ExportImport(records: map<Hash, Record>)
    requires Keyed(records)
    ensures Imported(map[], Exported(records)) == records
  {
    ExportedDistinct(records);
    ImportedExact(map[], Exported(records));
    var after := Imported(map[], Exported(records));
    forall h ensures h in after <==> h in records
             ensures h in records ==> h in after && after[h] == records[h]
    {
      ExportedElements(records, h);
    }
    assert after == records;
  }

  // ----- every payment was approved -----

  /** Event `n` of the run is a valid request, signed by the approver in force at that moment with swapping
      enabled, and this is its payment. */
  ghost predicate Approved(s: State, es: seq<Event>, rollback: bool, n: nat, p: Payment)
    requires n < |es|
  {
    var before := Run(s, es[..n], rollback);
    && es[n].Swap? && ValidAmount(es[n].req.amountENG)
    && before.params.enabled && es[n].req.signer == before.params.approver
    && p == Payment(es[n].req.burnTxHash, es[n].req.receiver, Minted(es[n].req.amountENG, before.params.multiplier))
  }

  lemma {:induction false} PaymentsAreApproved(s: State, es: seq<Event>, rollback: bool, k: nat)
    requires |s.payments| <= k < |Run(s, es, rollback).payments|
    ensures exists n :: 0 <= n < |es| && Approved(s, es, rollback, n, Run(s, es, rollback).payments[k])
    decreases |es|
  {
    if es != [] {
      var next, rest := Step(s, es[0], rollback), es[1..];
      StepAdds(s, es[0], rollback);
      if k < |next.payments| {
        PaymentsStay(next, rest, rollback);
        assert es[..0] == [];
        assert Approved(s, es, rollback, 0, next.payments[k]);
      } else {
        PaymentsAreApproved(next, rest, rollback, k);
        var n :| 0 <= n < |rest| && Approved(next, rest, rollback, n, Run(next, rest, rollback).payments[k]);
        assert es[..n + 1][1..] == rest[..n] && es[n + 1] == rest[n];
        assert Approved(s, es, rollback, n + 1, Run(s, es, rollback).payments[k]);
      }
    }
  }

  /** One event adds at most one payment, and only for a request that may swap. */
  lemma StepAdds(s: State, e: Event, rollback: bool)
    ensures var after := Step(s, e, rollback);
            after.payments == s.payments ||
            (&& e.Swap? && ValidAmount(e.req.amountENG) && s.params.enabled && e.req.signer == s.params.approver
             && after.payments == s.payments +
                  [Payment(e.req.burnTxHash, e.req.receiver, Minted(e.req.amountENG, s.params.multiplier))])
  {
    if e.Swap? && ValidAmount(e.req.amountENG) {
      HandledPays(s, e.req, e.mintOk, e.sendOk);
    }
  }

  lemma {:induction false} PaymentsStay(s: State, es: seq<Event>, rollback: bool)
    ensures s.payments <= Run(s, es, rollback).payments
    decreases |es|
  {
    if es != [] {
      StepAdds(s, es[0], rollback);
      PaymentsStay(Step(s, es[0], rollback), es[1..], rollback);
    }
  }

  // ----- coins, from any state -----

  /** Coins minted since `s` are those of the records completed since, plus what failed sends left behind. */
  ghost predicate CoinsGrow(s: State, after: State, rollback: bool) {
    && after.minted + Sum(DoneAmounts(s.records)) + s.held == s.minted + Sum(DoneAmounts(after.records)) + after.held
    && (rollback ==> after.held == s.held)
  }

  lemma StepCoins(s: State, e: Event, rollback: bool)
    ensures CoinsGrow(s, Step(s, e, rollback), rollback)
  {
    if e.Swap? && ValidAmount(e.req.amountENG) && Admitted(s, e.req) {
      var h, r := e.req.burnTxHash, Started(s.params, e.req);
      RecordUpdate(s.records, r);
      RecordUpdate(s.records[h := r], r.(done := true));
    }
  }

  /** From any state, also one that was imported, a run mints exactly for the records it completes. */
  lemma {:induction false} RunCoins(s: State, es: seq<Event>, rollback: bool)
    ensures CoinsGrow(s, Run(s, es, rollback), rollback)
    decreases |es|
  {
    if es != [] {
      StepCoins(s, es[0], rollback);
      RunCoins(Step(s, es[0], rollback), es[1..], rollback);
    }
  }

  // ----- replay protection across upgrades -----

  /** From any state, a run pays for a burn exactly if it completes the burn's record, and then once. */
  lemma {:induction false} RunPays(s: State, es: seq<Event>, rollback: bool, h: Hash)
    ensures var after := Run(s, es, rollback);
            && (Done(s, h) ==> Done(after, h))
            && PaidFor(after.payments, h) == PaidFor(s.payments, h) + (if Done(after, h) && !Done(s, h) then 1 else 0)
    decreases |es|
  {
    if es != [] {
      StepPays(s, es[0], rollback, h);
      RunPays(Step(s, es[0], rollback), es[1..], rollback, h);
    }
  }

  lemma StepPays(s: State, e: Event, rollback: bool, h: Hash)
    ensures var after := Step(s, e, rollback);
            && (Done(s, h) ==> Done(after, h))
            && PaidFor(after.payments, h) == PaidFor(s.payments, h) + (if Done(after, h) && !Done(s, h) then 1 else 0)
  {
    if e.Swap? && ValidAmount(e.req.amountENG) {
      HandledPays(s, e.req, e.mintOk, e.sendOk);
      PaidForAppend(s.payments, Payment(e.req.burnTxHash, e.req.receiver, Minted(e.req.amountENG, s.params.multiplier)), h);
    }
  }

  lemma {:induction false} RunKeyed(s: State, es: seq<Event>, rollback: bool)
    requires Keyed(s.records)
    ensures Keyed(Run(s, es, rollback).records)
    decreases |es|
  {
    if es != [] {
      RunKeyed(Step(s, es[0], rollback), es[1..], rollback);
    }
  }

  /** A new chain started from exported records; nothing has been minted or paid on it yet. */
  function Genesis(p: Params, swaps: seq<Record>): State {
    State(p, Imported(map[], swaps), 0, 0, [])
  }

  /** One run after the other, each on a new chain that imports what the one before exported: the payments
      made for a burn on all of them, and the state at the end. */
  ghost function Upgrades(p: Params, swaps: seq<Record>, runs: seq<seq<Event>>, rollback: bool, h: Hash): (nat, State)
    decreases |runs|
  {
    if runs == [] then (0, Genesis(p, swaps))
    else
      var s := Run(Genesis(p, swaps), runs[0], rollback);
      var (paid, end) := Upgrades(s.params, Exported(s.records), runs[1..], rollback, h);
      (PaidFor(s.payments, h) + paid, end)
  }

  lemma {:induction false} UpgradesPay(p: Params, swaps: seq<Record>, runs: seq<seq<Event>>, rollback: bool, h: Hash)
    requires Keyed(Imported(map[], swaps))
    ensures var (paid, end) := Upgrades(p, swaps, runs, rollback, h);
            var before := Done(Genesis(p, swaps), h);
            && (before ==> Done(end, h))
            && paid == (if Done(end, h) && !before then 1 else 0)
    decreases |runs|
  {
    if runs != [] {
      var start := Genesis(p, swaps);
      var s := Run(start, runs[0], rollback);
      RunPays(start, runs[0], rollback, h);
      RunKeyed(start, runs[0], rollback);
      ExportImport(s.records);
      UpgradesPay(s.params, Exported(s.records), runs[1..], rollback, h);
    }
  }

  /** Across any number of exports and imports, with any runs in between, each burn is paid once if its
      record is complete in the end, and never otherwise. */
  lemma ReplayProtectedAcrossUpgrades(p: Params, runs: seq<seq<Event>>, rollback: bool, h: Hash)
    ensures var (paid, end) := Upgrades(p, [], runs, rollback, h);
            paid == (if Done(end, h) then 1 else 0)
  {
    UpgradesPay(p, [], runs, rollback, h);
  }

  /** The coins minted on all chains together, and those left in module accounts when each was exported. */
  ghost function UpgradesMint(p: Params, swaps: seq<Record>, runs: seq<seq<Event>>, rollback: bool): (nat, nat)
    decreases |runs|
  {
    if runs == [] then (0, 0)
    else
      var s := Run(Genesis(p, swaps), runs[0], rollback);
      var (minted, stuck) := UpgradesMint(s.params, Exported(s.records), runs[1..], rollback);
      (s.minted + minted, s.held + stuck)
  }

  lemma {:induction false} UpgradesCoins(p: Params, swaps: seq<Record>, runs: seq<seq<Event>>, rollback: bool, h: Hash)
    requires Keyed(Imported(map[], swaps))
    ensures var (minted, stuck) := UpgradesMint(p, swaps, runs, rollback);
            var end := Upgrades(p, swaps, runs, rollback, h).1;
            && minted + Sum(DoneAmounts(Imported(map[], swaps))) == Sum(DoneAmounts(end.records)) + stuck
            && (rollback ==> stuck == 0)
    decreases |runs|
  {
    if runs != [] {
      var start := Genesis(p, swaps);
      var s := Run(start, runs[0], rollback);
      RunCoins(start, runs[0], rollback);
      RunKeyed(start, runs[0], rollback);
      ExportImport(s.records);
      UpgradesCoins(s.params, Exported(s.records), runs[1..], rollback, h);
    }
  }

  /** Across any number of upgrades, the coins minted are those of the records complete in the end, plus what
      failed sends left behind when failures are not rolled back. */
  lemma CoinsAcrossUpgrades(p: Params, runs: seq<seq<Event>>, rollback: bool, h: Hash)
    ensures var (minted, stuck) := UpgradesMint(p, [], runs, rollback);
            var end := Upgrades(p, [], runs, rollback, h).1;
            minted == Sum(DoneAmounts(end.records)) + stuck && (rollback ==> stuck == 0)
  {
    UpgradesCoins(p, [], runs, rollback, h);
    assert DoneAmounts(map[]) == map[];
  }
}
