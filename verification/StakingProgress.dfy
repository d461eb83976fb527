/** Exactly when a transaction succeeds: in a state the contract can reach, with the native supply below
    2^64, the only failures are the ones a caller can see coming. In particular no ratio divides by zero,
    no product leaves 128 bits, no `Supply` subtraction underflows, and the chain never lacks the tokens
    an emitted message moves. */
module StakingProgress {
  import opened Sums
  import opened Ratios
  import opened Uint128
  import opened Staking
  import opened StakingChain
  import opened StakingTheorems

  /** Everything the chain holds for the contract once the sent funds are credited. */
  ghost function Held(cfg: Config, w: World, funds: seq<Coin>): nat {
    w.liquid + Paid(funds, cfg.invest.bondDenom) + w.delegated + SumSeq(w.unbonding)
  }

  lemma ProductFits(x: nat, y: nat)
    requires x < TWO_64 && y <= TWO_64
    ensures x * y < TWO_128
  {
    MulMono(y, TWO_64, x);
    MulMono(x + 1, TWO_64, TWO_64);
  }

  lemma TransferSucceeds(cfg: Config, w: World, sender: HumanAddr, funds: seq<Coin>, rcpt: HumanAddr, amount: U128)
    requires Inv(w) && Held(cfg, w, funds) < TWO_64
    ensures Execute(cfg, w, sender, funds, Transfer(rcpt, amount), 0).Ok? <==>
            && cfg.canonical(rcpt).Ok?
            && cfg.canonical(sender).Ok?
            && amount <= Get(w.state.balances, cfg.canonical(sender).value)
  {
    if cfg.canonical(rcpt).Ok? && cfg.canonical(sender).Ok? {
      var m, from, to := w.state.balances, cfg.canonical(sender).value, cfg.canonical(rcpt).value;
      if amount <= Get(m, from) {
        var debited := m[from := Get(m, from) - amount];
        SumUpdate(m, from, Get(m, from) - amount);
        SumCoversEntry(debited, to);
        SumCoversEntry(m, from);
      }
    }
  }

  lemma BondSucceeds(cfg: Config, w: World, sender: HumanAddr, funds: seq<Coin>)
    requires Inv(w) && Held(cfg, w, funds) < TWO_64
    ensures Execute(cfg, w, sender, funds, Bond, 0).Ok? <==>
            cfg.canonical(sender).Ok? && FindPayment(funds, cfg.invest.bondDenom).Ok?
  {
    if cfg.canonical(sender).Ok? && FindPayment(funds, cfg.invest.bondDenom).Ok? {
      var funded := w.(liquid := w.liquid + Paid(funds, cfg.invest.bondDenom));
      var payment := FindPayment(funds, cfg.invest.bondDenom).value;
      GetBondedIsDelegation(cfg, funded);
      PaymentIsPaid(funds, cfg.invest.bondDenom);
      ProductFits(payment, w.state.supply.issued);
      ProductFits(payment, DECIMAL_FRACTIONAL);
      assert ToMint(w.state.supply, w.delegated, payment).Ok?;
      MintBounds(w.state.supply, payment);
      SumCoversEntry(w.state.balances, cfg.canonical(sender).value);
      var response := HandleBond(cfg, w.state, Env(sender, funds), Query(cfg, funded));
      assert response.Ok?;
      DispatchSingle(cfg, funded.(state := response.value.state), Delegate(payment), 0);
    }
  }

  /** Redeeming at most what is issued neither divides by zero, overflows nor underflows. */
  lemma RedeemSucceeds(supply: Supply, remainder: nat)
    requires 0 < supply.issued <= supply.bonded < TWO_64 && supply.claims < TWO_64
    requires remainder <= supply.issued
    ensures Redeem(supply, supply.bonded, remainder).Ok?
    ensures Redeem(supply, supply.bonded, remainder).value.1 <= supply.bonded
  {
    ProductFits(remainder, supply.bonded);
    FloorRatio(remainder, supply.bonded, supply.issued);
    MulMono(remainder, supply.issued, supply.bonded);
    CancelFactor(remainder * supply.bonded / supply.issued, supply.bonded, supply.issued);
  }

  lemma TakeTaxedSucceeds(m: Ledger, sender: CanonicalAddr, owner: CanonicalAddr, amount: nat, tax: nat)
    requires Sum(m) < TWO_64 && amount <= Get(m, sender) && tax <= amount
    ensures TakeTaxed(m, sender, owner, amount, tax).Ok?
  {
    var debited := m[sender := Get(m, sender) - amount];
    SumUpdate(m, sender, Get(m, sender) - amount);
    SumCoversEntry(debited, owner);
    SumCoversEntry(m, sender);
  }

  /** A tax of at most 100% is computed without overflow and never exceeds the amount. */
  lemma TaxWithinAmount(amount: nat, exitTax: nat)
    requires amount < TWO_64 && exitTax <= DECIMAL_FRACTIONAL
    ensures MulDecimal(amount, exitTax).Ok? && MulDecimal(amount, exitTax).value <= amount
  {
    ProductFits(amount, exitTax);
    FloorRatio(amount, exitTax, DECIMAL_FRACTIONAL);
    MulMono(exitTax, DECIMAL_FRACTIONAL, amount);
    CancelFactor(amount * exitTax / DECIMAL_FRACTIONAL, amount, DECIMAL_FRACTIONAL);
  }

  /** The caller-visible conditions for unbonding. */
  ghost predicate MayUnbond(cfg: Config, w: World, sender: HumanAddr, amount: U128) {
    && cfg.canonical(sender).Ok?
    && cfg.invest.minWithdrawal <= amount <= Get(w.state.balances, cfg.canonical(sender).value)
    && 0 < w.state.supply.issued
    && MulDecimal(amount, cfg.invest.exitTax).Ok?
    && MulDecimal(amount, cfg.invest.exitTax).value <= amount
  }

  lemma UnbondSucceeds(cfg: Config, w: World, sender: HumanAddr, funds: seq<Coin>, amount: U128)
    requires Inv(w) && Held(cfg, w, funds) < TWO_64
    ensures Execute(cfg, w, sender, funds, Unbond(amount), 0).Ok? <==> MayUnbond(cfg, w, sender, amount)
  {
    var funded := w.(liquid := w.liquid + Paid(funds, cfg.invest.bondDenom));
    GetBondedIsDelegation(cfg, funded);
    if MayUnbond(cfg, w, sender, amount) {
      var account := cfg.canonical(sender).value;
      var tax := MulDecimal(amount, cfg.invest.exitTax).value;
      SumCoversEntry(w.state.balances, account);
      SumCoversEntry(w.state.claims, account);
      TakeTaxedSucceeds(w.state.balances, account, cfg.invest.owner, amount, tax);
      RedeemSucceeds(w.state.supply, amount - tax);
      var response := HandleUnbond(cfg, w.state, Env(sender, funds), Query(cfg, funded), amount);
      assert response.Ok?;
      DispatchSingle(cfg, funded.(state := response.value.state), response.value.messages[0], 0);
    }
  }

  /** With a tax of at most 100%, a positive unbond of owned derivatives fails only below the minimum. */
  lemma PositiveUnbondSucceeds(cfg: Config, w: World, sender: HumanAddr, amount: U128)
    requires Inv(w) && Held(cfg, w, []) < TWO_64 && cfg.invest.exitTax <= DECIMAL_FRACTIONAL
    requires cfg.canonical(sender).Ok? && 0 < amount <= Get(w.state.balances, cfg.canonical(sender).value)
    ensures Execute(cfg, w, sender, [], Unbond(amount), 0).Ok? <==> cfg.invest.minWithdrawal <= amount
  {
    SumCoversEntry(w.state.balances, cfg.canonical(sender).value);
    TaxWithinAmount(amount, cfg.invest.exitTax);
    UnbondSucceeds(cfg, w, sender, [], amount);
  }

  /** Claiming needs no bound on the supply: its subtractions never underflow. */
  lemma ClaimSucceeds(cfg: Config, w: World, sender: HumanAddr, funds: seq<Coin>)
    requires Inv(w)
    ensures Execute(cfg, w, sender, funds, Claim, 0).Ok? <==>
            && cfg.invest.minWithdrawal <= w.liquid + Paid(funds, cfg.invest.bondDenom)
            && cfg.canonical(sender).Ok?
            && cfg.canonical(sender).value in w.state.claims
  {
    var funded := w.(liquid := w.liquid + Paid(funds, cfg.invest.bondDenom));
    var response := HandleClaim(cfg, w.state, Env(sender, funds), Query(cfg, funded));
    if cfg.canonical(sender).Ok? {
      SumCoversEntry(w.state.claims, cfg.canonical(sender).value);
    }
    if response.Ok? {
      DispatchSingle(cfg, funded.(state := response.value.state), response.value.messages[0], 0);
    }
  }

  /** Reinvesting never fails, whatever the withdrawal pays out. */
  lemma ReinvestSucceeds(cfg: Config, w: World, sender: HumanAddr, funds: seq<Coin>, withdrawn: nat)
    requires Inv(w) && Held(cfg, w, funds) + withdrawn < TWO_64
    ensures Execute(cfg, w, sender, funds, Reinvest, withdrawn).Ok?
  {
    ReinvestEffect(cfg, w, sender, funds, withdrawn);
  }
}
