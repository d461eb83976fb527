/** What a derivative is worth: holders who do nothing never lose, and nobody gains by bonding and
    unbonding at once. */
module StakingValue {
  import opened Outcomes
  import opened Sums
  import opened Ratios
  import opened Uint128
  import opened Staking
  import opened StakingChain
  import opened StakingTheorems

  /** Native tokens that `b` derivatives redeem for, before tax. */
  function Redeemable(supply: Supply, b: nat): nat {
    if supply.issued == 0 then 0 else b * supply.bonded / supply.issued
  }

  /** `holder` owns exactly `b` derivatives in every state of the run. */
  ghost predicate Holds(cfg: Config, w: World, es: seq<Event>, holder: CanonicalAddr, b: nat)
    decreases |es|
  {
    && Get(w.state.balances, holder) == b
    && (es != [] ==> Holds(cfg, Step(cfg, w, es[0]), es[1..], holder, b))
  }

  lemma {:induction false} RunKeepsRate(cfg: Config, w: World, es: seq<Event>, holder: CanonicalAddr, b: nat)
    requires Inv(w) && 0 < b && Holds(cfg, w, es, holder, b)
    ensures 0 < w.state.supply.issued && 0 < Run(cfg, w, es).state.supply.issued
    ensures RateKept(w.state.supply, Run(cfg, w, es).state.supply)
    decreases |es|
  {
    SumCoversEntry(w.state.balances, holder);
    if es != [] {
      var next := Step(cfg, w, es[0]);
      StepKeeps(cfg, w, es[0]);
      RunKeepsRate(cfg, next, es[1..], holder, b);
      var s1, s2, s3 := w.state.supply, next.state.supply, Run(cfg, w, es).state.supply;
      CrossTransitive(s1.bonded, s1.issued, s2.bonded, s2.issued, s3.bonded, s3.issued);
    }
  }

  lemma BetterRateRedeemsMore(before: Supply, after: Supply, b: nat)
    requires 0 < before.issued && 0 < after.issued && RateKept(before, after)
    ensures Redeemable(before, b) <= Redeemable(after, b)
  {
    var q := Redeemable(before, b);
    FloorRatio(b, before.bonded, before.issued);
    MulMono(q * before.issued, b * before.bonded, after.issued);
    MulMono(before.bonded * after.issued, after.bonded * before.issued, b);
    assert (q * before.issued) * after.issued == (q * after.issued) * before.issued;
    assert (b * before.bonded) * after.issued == (before.bonded * after.issued) * b;
    assert (after.bonded * before.issued) * b == (b * after.bonded) * before.issued;
    CancelFactor(q * after.issued, b * after.bonded, before.issued);
    FloorIsGreatest(b * after.bonded, after.issued, q);
  }

  lemma NothingRedeemsNothing(supply: Supply)
    ensures Redeemable(supply, 0) == 0
  {
  }

  /** Whatever everyone else bonds, unbonds, claims or reinvests, an untouched balance never loses value. */
  lemma {:induction false} PassiveHolderNeverLoses(cfg: Config, w: World, es: seq<Event>, holder: CanonicalAddr, b: nat)
    requires Inv(w) && Holds(cfg, w, es, holder, b)
    ensures Redeemable(w.state.supply, b) <= Redeemable(Run(cfg, w, es).state.supply, b)
  {
    if b == 0 {
      NothingRedeemsNothing(w.state.supply);
      NothingRedeemsNothing(Run(cfg, w, es).state.supply);
    } else {
      RunKeepsRate(cfg, w, es, holder, b);
      BetterRateRedeemsMore(w.state.supply, Run(cfg, w, es).state.supply, b);
    }
  }

  // ----- bonding and unbonding at once -----

  lemma ShareWithinPayment(issued: nat, bonded: nat, minted: nat, payment: nat, remainder: nat)
    requires minted * bonded <= payment * issued && remainder <= minted && 0 < issued + minted
    ensures remainder * (bonded + payment) / (issued + minted) <= payment
  {
    MulMono(remainder, minted, bonded + payment);
    Distribute(minted, bonded, payment);
    Distribute(payment, issued, minted);
    FloorAtMost(remainder * (bonded + payment), issued + minted, payment);
  }

  /** Redeeming what a payment just minted returns at most the payment, when the rate was defined. */
  lemma RedeemAfterMint(supply: Supply, payment: nat, remainder: nat)
    requires supply.issued <= supply.bonded
    requires ToMint(supply, supply.bonded, payment).Ok?
    requires remainder <= ToMint(supply, supply.bonded, payment).value
    requires 0 < supply.issued || supply.bonded == 0
    ensures
      var minted := ToMint(supply, supply.bonded, payment).value;
      Redeemable(Supply(supply.issued + minted, supply.bonded + payment, supply.claims), remainder) <= payment
  {
    MintBounds(supply, payment);
    var minted := ToMint(supply, supply.bonded, payment).value;
    if 0 < supply.issued + minted {
      ShareWithinPayment(supply.issued, supply.bonded, minted, payment, remainder);
    }
  }

  /** With bonded tokens left over and nothing issued, the first bonder owns the leftover as well: only a
      high enough tax keeps the claim within the payment. */
  lemma LeftoverShare(payment: nat, leftover: nat, tax: nat)
    requires 0 < payment && tax <= payment
    ensures (payment - tax) * (leftover + payment) / payment <= payment <==>
            (payment - tax) * leftover < tax * payment + payment
  {
    var kept := payment - tax;
    FloorWithin(kept * (leftover + payment), payment, payment);
    Distribute(kept, leftover, payment);
    DistributeLeft(kept, tax, payment);
  }

  /** Whether a payment into this supply can be taken out again at a gain, for a given exit tax on it. */
  predicate NoGain(supply: Supply, payment: nat, tax: nat) {
    || 0 < supply.issued
    || supply.bonded == 0
    || (payment - tax) * supply.bonded < tax * payment + payment
  }

  /** The claim from unbonding all that a bond minted, against the payment. */
  lemma RoundTripWorth(w: World, w1: World, w2: World, account: CanonicalAddr, owner: CanonicalAddr,
                       paid: nat, payment: nat, minted: nat, amount: nat, tax: nat, worth: nat)
    requires w.state.supply.issued <= w.state.supply.bonded
    requires ToMint(w.state.supply, w.state.supply.bonded, payment) == Ok(minted)
    requires Bonded(w, w1, account, paid, payment, minted)
    requires Unbonded(w1, w2, account, owner, amount, tax, worth)
    requires amount == Get(w1.state.balances, account) - Get(w.state.balances, account)
    ensures Get(w2.state.claims, account) - Get(w.state.claims, account) <= payment <==>
            NoGain(w.state.supply, payment, tax)
  {
    var supply, supply1 := w.state.supply, w1.state.supply;
    assert worth == Redeemable(supply1, minted - tax);
    if 0 < supply.issued || supply.bonded == 0 {
      RedeemAfterMint(supply, payment, minted - tax);
    } else {
      MintAtOne(payment);
      LeftoverShare(payment, supply.bonded, tax);
    }
  }

  /** A bond followed by an unbond, as changes of the world. */
  lemma RoundTripEffect(cfg: Config, w: World, w1: World, w2: World, sender: HumanAddr, funds: seq<Coin>, amount: U128)
    returns (payment: nat, minted: nat, worth: nat)
    requires Inv(w) && Execute(cfg, w, sender, funds, Bond, 0) == Ok(w1)
    requires Execute(cfg, w1, sender, [], Unbond(amount), 0) == Ok(w2)
    ensures FindPayment(funds, cfg.invest.bondDenom) == Ok(payment) && cfg.canonical(sender).Ok?
    ensures ToMint(w.state.supply, w.state.supply.bonded, payment) == Ok(minted)
    ensures MulDecimal(amount, cfg.invest.exitTax).Ok?
    ensures Bonded(w, w1, cfg.canonical(sender).value, Paid(funds, cfg.invest.bondDenom), payment, minted)
    ensures Unbonded(w1, w2, cfg.canonical(sender).value, cfg.invest.owner, amount,
                     MulDecimal(amount, cfg.invest.exitTax).value, worth)
  {
    BondEffect(cfg, w, w1, sender, funds, 0);
    payment := FindPayment(funds, cfg.invest.bondDenom).value;
    minted := ToMint(w.state.supply, w.state.supply.bonded, payment).value;
    UnbondEffect(cfg, w1, w2, sender, [], amount, 0);
    var account, tax := cfg.canonical(sender).value, MulDecimal(amount, cfg.invest.exitTax).value;
    worth :| Unbonded(w1, w2, account, cfg.invest.owner, amount, tax, worth);
  }

  /** Bonding and unbonding everything just minted yields a claim within the payment exactly when something
      was issued, nothing was bonded, or the exit tax takes back what was left over. */
  lemma BondThenUnbond(cfg: Config, w: World, w1: World, w2: World, sender: HumanAddr, funds: seq<Coin>, minted: U128)
    requires Inv(w) && Execute(cfg, w, sender, funds, Bond, 0) == Ok(w1)
    requires Execute(cfg, w1, sender, [], Unbond(minted), 0) == Ok(w2)
    requires cfg.canonical(sender).Ok?
    requires minted == Get(w1.state.balances, cfg.canonical(sender).value)
                       - Get(w.state.balances, cfg.canonical(sender).value)
    ensures FindPayment(funds, cfg.invest.bondDenom).Ok?
    ensures MulDecimal(minted, cfg.invest.exitTax).Ok?
    ensures
      var account, payment := cfg.canonical(sender).value, FindPayment(funds, cfg.invest.bondDenom).value;
      Get(w2.state.claims, account) - Get(w.state.claims, account) <= payment <==>
      NoGain(w.state.supply, payment, MulDecimal(minted, cfg.invest.exitTax).value)
  {
    var payment, got, worth := RoundTripEffect(cfg, w, w1, w2, sender, funds, minted);
    RoundTripWorth(w, w1, w2, cfg.canonical(sender).value, cfg.invest.owner, Paid(funds, cfg.invest.bondDenom),
                   payment, got, minted, MulDecimal(minted, cfg.invest.exitTax).value, worth);
  }

  /** The excluded case is real: rewards reinvested before anyone bonds are bonded with nothing issued. */
  lemma LeftoverIsReachable(cfg: Config, anyone: HumanAddr, reward: nat)
    requires anyone != cfg.contract && 0 < reward < TWO_128 && cfg.invest.minWithdrawal <= reward
    ensures
      var w := Run(cfg, GENESIS, [TokensArrive(reward), Transaction(anyone, [], Reinvest, 0, false)]);
      w == World(State(map[], map[], Supply(0, reward, 0)), 0, reward, [])
  {
    var arrive, reinvest := TokensArrive(reward), Transaction(anyone, [], Reinvest, 0, false);
    var w1 := Step(cfg, GENESIS, arrive);
    DispatchReinvest(cfg, w1, 0);
    assert Execute(cfg, w1, anyone, [], Reinvest, 0) == Dispatch(cfg, w1, [Withdraw, ExecuteBondAllTokens], 0);
    calc {
      Run(cfg, GENESIS, [arrive, reinvest]);
      { assert [arrive, reinvest][1..] == [reinvest]; }
      Run(cfg, w1, [reinvest]);
      { assert [reinvest][1..] == []; }
      Step(cfg, w1, reinvest);
    }
  }
}
