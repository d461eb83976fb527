/** Who gains and who loses what in a successful transaction, account by account. Debits and credits are
    written as sums, so that they also hold when the accounts coincide. */
module StakingAccounts {
  import opened Outcomes
  import opened Sums
  import opened Uint128
  import opened Staking
  import opened StakingChain
  import opened StakingTheorems
  import opened StakingValue

  lemma TransferMoves(cfg: Config, w: World, after: World, sender: HumanAddr, funds: seq<Coin>, rcpt: HumanAddr,
                      amount: U128, a: CanonicalAddr)
    requires Execute(cfg, w, sender, funds, Transfer(rcpt, amount), 0) == Ok(after)
    ensures cfg.canonical(sender).Ok? && cfg.canonical(rcpt).Ok?
    ensures Get(after.state.balances, a) + If(cfg.canonical(sender) == Ok(a), amount) ==
            Get(w.state.balances, a) + If(cfg.canonical(rcpt) == Ok(a), amount)
    ensures after == w.(liquid := w.liquid + Paid(funds, cfg.invest.bondDenom),
                        state := w.state.(balances := after.state.balances))
  {
  }

  /** Derivatives minted for a payment at the going rate, rounded down; one for one while none are issued. */
  function Minted(supply: Supply, payment: nat): nat
    requires supply.issued <= supply.bonded
  {
    if supply.issued == 0 then payment else payment * supply.issued / supply.bonded
  }

  lemma MintIsMinted(supply: Supply, payment: nat)
    requires supply.issued <= supply.bonded
    ensures ToMint(supply, supply.bonded, payment).Ok? ==>
              ToMint(supply, supply.bonded, payment) == Ok(Minted(supply, payment))
  {
    MintAtOne(payment);
  }

  /** The sender alone receives derivatives, at the going rate; the payment is delegated and any other
      funds stay liquid. */
  lemma BondMints(cfg: Config, w: World, after: World, sender: HumanAddr, funds: seq<Coin>, a: CanonicalAddr)
    requires Inv(w) && Execute(cfg, w, sender, funds, Bond, 0) == Ok(after)
    ensures FindPayment(funds, cfg.invest.bondDenom).Ok?
    ensures
      var payment := FindPayment(funds, cfg.invest.bondDenom).value;
      var supply, minted := w.state.supply, Minted(w.state.supply, payment);
      && Get(after.state.balances, a) == Get(w.state.balances, a) + If(cfg.canonical(sender) == Ok(a), minted)
      && after.state.supply == Supply(supply.issued + minted, supply.bonded + payment, supply.claims)
      && after.state.claims == w.state.claims
      && after.liquid + payment == w.liquid + Paid(funds, cfg.invest.bondDenom)
      && after.delegated == w.delegated + payment
  {
    BondEffect(cfg, w, after, sender, funds, 0);
    MintIsMinted(w.state.supply, FindPayment(funds, cfg.invest.bondDenom).value);
  }

  lemma UnbondedAccounts(w: World, after: World, account: CanonicalAddr, owner: CanonicalAddr,
                         amount: nat, tax: nat, worth: nat, a: CanonicalAddr)
    requires Unbonded(w, after, account, owner, amount, tax, worth)
    ensures worth == Redeemable(w.state.supply, amount - tax)
    ensures Get(after.state.balances, a) + If(account == a, amount) ==
            Get(w.state.balances, a) + If(owner == a, tax)
    ensures Get(after.state.claims, a) == Get(w.state.claims, a) + If(account == a, worth)
    ensures after.state.supply.issued == w.state.supply.issued - (amount - tax)
    ensures after.state.supply.bonded == w.state.supply.bonded - worth
  {
  }

  /** The sender pays the full amount, the owner receives the tax (also when the owner is the sender), and
      only the sender's claim grows, by what the untaxed part redeems for. */
  lemma UnbondCharges(cfg: Config, w: World, after: World, sender: HumanAddr, funds: seq<Coin>, amount: U128,
                      tax: nat, a: CanonicalAddr)
    requires Inv(w) && Execute(cfg, w, sender, funds, Unbond(amount), 0) == Ok(after)
    requires tax == amount * cfg.invest.exitTax / DECIMAL_FRACTIONAL
    ensures tax <= amount && cfg.canonical(sender).Ok?
    ensures
      var account, worth := cfg.canonical(sender).value, Redeemable(w.state.supply, amount - tax);
      && Get(after.state.balances, a) + If(account == a, amount)
         == Get(w.state.balances, a) + If(cfg.invest.owner == a, tax)
      && Get(after.state.claims, a) == Get(w.state.claims, a) + If(account == a, worth)
      && after.state.supply.issued == w.state.supply.issued - (amount - tax)
      && after.state.supply.bonded == w.state.supply.bonded - worth
      && after.unbonding == w.unbonding + [worth]
  {
    UnbondEffect(cfg, w, after, sender, funds, amount, 0);
    var account := cfg.canonical(sender).value;
    assert tax == MulDecimal(amount, cfg.invest.exitTax).value;
    var worth :| Unbonded(w, after, account, cfg.invest.owner, amount, tax, worth);
    UnbondedAccounts(w, after, account, cfg.invest.owner, amount, tax, worth, a);
  }

  /** A claim is paid in full or as far as the liquid tokens reach, and reduced by exactly what is sent. */
  lemma ClaimPays(cfg: Config, w: World, after: World, sender: HumanAddr, funds: seq<Coin>, a: CanonicalAddr)
    requires sender != cfg.contract && Execute(cfg, w, sender, funds, Claim, 0) == Ok(after)
    ensures
      var liquid := w.liquid + Paid(funds, cfg.invest.bondDenom);
      var sent := liquid - after.liquid;
      && cfg.canonical(sender).Ok?
      && 0 <= sent <= liquid
      && Get(after.state.claims, a) + If(cfg.canonical(sender) == Ok(a), sent) == Get(w.state.claims, a)
      && (after.liquid == 0 || Get(after.state.claims, cfg.canonical(sender).value) == 0)
      && after.state.supply == w.state.supply.(claims := after.state.supply.claims)
      && after.state.supply.claims + sent == w.state.supply.claims
      && after.state.balances == w.state.balances
  {
    var funded := w.(liquid := w.liquid + Paid(funds, cfg.invest.bondDenom));
    ClaimHandled(cfg, w.state, Env(sender, funds), Query(cfg, funded));
    var response := HandleClaim(cfg, w.state, Env(sender, funds), Query(cfg, funded)).value;
    DispatchSingle(cfg, funded.(state := response.state), response.messages[0], 0);
  }

  /** Reinvesting delegates the whole surplus over the claims, or nothing when it is below the minimum. */
  lemma ReinvestBonds(cfg: Config, w: World, after: World, sender: HumanAddr, funds: seq<Coin>, withdrawn: nat)
    requires Execute(cfg, w, sender, funds, Reinvest, withdrawn) == Ok(after)
    ensures
      var paid := w.(liquid := w.liquid + Paid(funds, cfg.invest.bondDenom) + withdrawn);
      if paid.liquid < w.state.supply.claims + cfg.invest.minWithdrawal then after == paid
      else
        && after.liquid == w.state.supply.claims
        && after.liquid + after.delegated == paid.liquid + w.delegated
        && after.state.supply.bonded - w.state.supply.bonded == after.delegated - w.delegated
        && after.state == w.state.(supply := w.state.supply.(bonded := after.state.supply.bonded))
        && after.unbonding == w.unbonding
  {
    ReinvestEffect(cfg, w, sender, funds, withdrawn);
  }
}
