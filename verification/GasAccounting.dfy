/** Gas shared between the Wasm VM, which meters itself, and the chain, which reports what its callbacks
    cost. All figures are u64; the library is built with overflow checks, so an addition that leaves 64 bits
    is a panic. */
module GasAccounting {
  import opened Uint128

  type U64 = x: nat | x < TWO_64

  /** Limits above this one are refused by the VM's metering. */
  const MAX_GAS_LIMIT: nat := 0x7FFF_FFFF_FFFF_FFFF

  function SaturatingSub(a: nat, b: nat): nat {
    if a < b then 0 else a - b
  }

  datatype Gas = Gas(limit: U64, external: U64, left: U64)

  /** Gas used inside the VM, derived from what the VM says is left. */
  function UsedInVm(g: Gas): nat {
    SaturatingSub(SaturatingSub(g.limit, g.external), g.left)
  }

  datatype VmResult = VmOk | GasDepletion | Uninitialized | Panic

  // ----- the accounting as it runs -----

  class Context {
    var gasLimit: U64
    var externallyUsedGas: U64
    /** What the VM's metering has left. */
    var gasLeft: U64
    const hasInstance: bool

    function View(): Gas
      reads this
    {
      Gas(gasLimit, externallyUsedGas, gasLeft)
    }

    constructor (limit: U64, hasInstance: bool)
      requires limit <= MAX_GAS_LIMIT
      ensures View() == Gas(limit, 0, limit) && this.hasInstance == hasInstance
    {
      gasLimit, externallyUsedGas, gasLeft := limit, 0, limit;
      this.hasInstance := hasInstance;
    }

    /** The VM executes instructions; running out leaves zero. */
    method DecreaseGasLeft(amount: U64) returns (r: VmResult)
      modifies this`gasLeft
      ensures r == (if amount > old(gasLeft) then GasDepletion else VmOk)
      ensures gasLeft == SaturatingSub(old(gasLeft), amount)
    {
      if amount > gasLeft {
        gasLeft := 0;
        return GasDepletion;
      }
      gasLeft := gasLeft - amount;
      return VmOk;
    }

    method AccountForExternallyUsedGas(usedGas: U64) returns (r: VmResult)
      modifies this`externallyUsedGas, this`gasLeft
      ensures !hasInstance ==> r == Uninitialized && View() == old(View())
      ensures hasInstance ==> (View(), r) == Charged(old(View()), usedGas)
    {
      if !hasInstance {
        return Uninitialized;
      }
      var wasmerUsedGas := SaturatingSub(SaturatingSub(gasLimit, externallyUsedGas), gasLeft);
      if externallyUsedGas + usedGas >= TWO_64 {
        return Panic;
      }
      externallyUsedGas := externallyUsedGas + usedGas;
      var newLimit := SaturatingSub(SaturatingSub(gasLimit, externallyUsedGas), wasmerUsedGas);
      if newLimit > MAX_GAS_LIMIT {
        return Panic;
      }
      gasLeft := newLimit;
      if externallyUsedGas + wasmerUsedGas >= TWO_64 {
        return Panic;
      }
      if externallyUsedGas + wasmerUsedGas > gasLimit {
        return GasDepletion;
      }
      return VmOk;
    }
  }

  function Charged(g: Gas, amount: U64): (Gas, VmResult) {
    var used := UsedInVm(g);
    if g.external + amount >= TWO_64 then (g, Panic)
    else
      var charged := g.(external := g.external + amount);
      var left := SaturatingSub(SaturatingSub(g.limit, charged.external), used);
      if left > MAX_GAS_LIMIT then (charged, Panic)
      else
        (charged.(left := left),
         if charged.external + used >= TWO_64 then Panic
         else if charged.external + used > g.limit then GasDepletion
         else VmOk)
  }

  function Consumed(g: Gas, amount: U64): (Gas, VmResult) {
    (g.(left := SaturatingSub(g.left, amount)), if amount > g.left then GasDepletion else VmOk)
  }

  // ----- what the figures mean -----

  /** VM-used, external and left add up to the limit. */
  ghost predicate Accounted(g: Gas, used: nat) {
    g.limit <= MAX_GAS_LIMIT && used + g.external + g.left == g.limit
  }

  /** How a charge that brings the total to `after` must be judged. */
  function Judged(after: nat, limit: nat): VmResult {
    if after <= limit then VmOk else if after < TWO_64 then GasDepletion else Panic
  }

  /** A charge passes exactly when the true total fits the limit; it then moves gas from left to external
      and leaves the VM figure alone. */
  lemma ChargeExact(g: Gas, used: nat, amount: U64)
    requires Accounted(g, used)
    ensures UsedInVm(g) == used
    ensures var (g', r) := Charged(g, amount);
            && r == Judged(used + g.external + amount, g.limit)
            && (r == VmOk ==> Accounted(g', used) && UsedInVm(g') == used && g'.external == g.external + amount)
  {
  }

  // ----- whole runs -----

  datatype Event = VmWork(amount: U64) | Callback(amount: U64)

  function Apply(g: Gas, e: Event): (Gas, VmResult) {
    match e
    case VmWork(amount) => Consumed(g, amount)
    case Callback(amount) => Charged(g, amount)
  }

  datatype Ran = Ran(gas: Gas, result: VmResult)

  /** Runs events up to and including the first depletion. */
  function Run(g: Gas, es: seq<Event>): Ran
    decreases |es|
  {
    if es == [] then Ran(g, VmOk)
    else
      var (next, r) := Apply(g, es[0]);
      if r != VmOk then Ran(next, r) else Run(next, es[1..])
  }

  function VmTotal(es: seq<Event>): nat {
    if es == [] then 0 else (if es[0].VmWork? then es[0].amount else 0) + VmTotal(es[1..])
  }

  function CallbackTotal(es: seq<Event>): nat {
    if es == [] then 0 else (if es[0].Callback? then es[0].amount else 0) + CallbackTotal(es[1..])
  }

  /** The verdict on a run, from one running total: the first event to pass the limit ends the run, with a
      panic if it is a charge that takes the total out of 64 bits. */
  function Verdict(total: nat, limit: nat, es: seq<Event>): VmResult
    decreases |es|
  {
    if es == [] then VmOk
    else
      var after := total + es[0].amount;
      if after <= limit then Verdict(after, limit, es[1..])
      else if es[0].VmWork? then GasDepletion
      else Judged(after, limit)
  }

  /** One event, from any consistent figures. */
  lemma EventExact(g: Gas, used: nat, e: Event)
    requires Accounted(g, used)
    ensures var (g', r) := Apply(g, e);
            && r == Verdict(used + g.external, g.limit, [e])
            && (r == VmOk ==>
                  && g'.limit == g.limit
                  && g'.external == g.external + CallbackTotal([e])
                  && Accounted(g', used + VmTotal([e])))
  {
    assert [e][1..] == [];
    if e.Callback? {
      ChargeExact(g, used, e.amount);
    }
  }

  lemma {:induction false} RunExact(g: Gas, used: nat, es: seq<Event>)
    requires Accounted(g, used)
    ensures var ran := Run(g, es);
            && ran.result == Verdict(used + g.external, g.limit, es)
            && (ran.result == VmOk <==> used + g.external + VmTotal(es) + CallbackTotal(es) <= g.limit)
            && (ran.result == VmOk ==>
                  && ran.gas.limit == g.limit
                  && Accounted(ran.gas, used + VmTotal(es))
                  && UsedInVm(ran.gas) == used + VmTotal(es)
                  && ran.gas.external == g.external + CallbackTotal(es))
    decreases |es|
  {
    if es != [] {
      var (next, r) := Apply(g, es[0]);
      EventExact(g, used, es[0]);
      assert [es[0]][1..] == [];
      if r == VmOk {
        RunExact(next, used + VmTotal([es[0]]), es[1..]);
      }
    }
  }

  /** A run ends in a panic exactly when the charge that first passes the limit also leaves 64 bits. */
  lemma {:induction false} PanicsExactly(total: nat, limit: nat, es: seq<Event>)
    requires total <= limit <= MAX_GAS_LIMIT
    ensures Verdict(total, limit, es) == Panic <==>
            exists n :: 0 <= n < |es| && Bursts(total, limit, es, n)
    decreases |es|
  {
    if es != [] {
      var after := total + es[0].amount;
      if after <= limit {
        PanicsExactly(after, limit, es[1..]);
        forall n | 0 <= n < |es| - 1 ensures Bursts(total, limit, es, n + 1) <==> Bursts(after, limit, es[1..], n) {
          assert es[..n + 1][1..] == es[1..][..n];
        }
        assert !Bursts(total, limit, es, 0);
        if Verdict(total, limit, es) == Panic {
          var n :| 0 <= n < |es| - 1 && Bursts(after, limit, es[1..], n);
          assert Bursts(total, limit, es, n + 1);
        } else {
          forall n | 0 <= n < |es| ensures !Bursts(total, limit, es, n) {
            assert n > 0 ==> !Bursts(after, limit, es[1..], n - 1);
          }
        }
      } else {
        assert es[..0] == [];
        forall n | 0 < n < |es| ensures !Bursts(total, limit, es, n) {
          assert es[..n][0] == es[0];
        }
        assert Bursts(total, limit, es, 0) <==> es[0].Callback? && after >= TWO_64;
      }
    }
  }

  /** Everything before event `n` fits the limit, and that event is a charge that leaves 64 bits. */
  ghost predicate Bursts(total: nat, limit: nat, es: seq<Event>, n: nat)
    requires n < |es|
  {
    var before := total + VmTotal(es[..n]) + CallbackTotal(es[..n]);
    before <= limit && es[n].Callback? && before + es[n].amount >= TWO_64
  }

  /** From a fresh instance, at every point of every run: the run has passed exactly if all it used together
      fits the limit, what is left is then the rest, and the two figures are each exact. */
  lemma GasIsShared(limit: U64, es: seq<Event>)
    requires limit <= MAX_GAS_LIMIT
    ensures var ran := Run(Gas(limit, 0, limit), es);
            && (ran.result == VmOk <==> VmTotal(es) + CallbackTotal(es) <= limit)
            && (ran.result == VmOk ==>
                  && ran.gas.left == limit - VmTotal(es) - CallbackTotal(es)
                  && UsedInVm(ran.gas) == VmTotal(es)
                  && ran.gas.external == CallbackTotal(es))
            && (ran.result == Panic <==> exists n :: 0 <= n < |es| && Bursts(0, limit, es, n))
            && (ran.result == GasDepletion <==> ran.result != VmOk && ran.result != Panic)
  {
    RunExact(Gas(limit, 0, limit), 0, es);
    PanicsExactly(0, limit, es);
    NeverUninitialized(0, limit, es);
  }

  lemma {:induction false} NeverUninitialized(total: nat, limit: nat, es: seq<Event>)
    ensures Verdict(total, limit, es) != Uninitialized
    decreases |es|
  {
    if es != [] {
      NeverUninitialized(total + es[0].amount, limit, es[1..]);
    }
  }
}
