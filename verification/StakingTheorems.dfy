/** What every run of the staking contract keeps. */
module StakingTheorems {
  import opened Outcomes
  import opened Sums
  import opened Ratios
  import opened Uint128
  import opened Staking
  import opened StakingChain

  /** The books balance, the contract can honour every claim, its real delegation is the recorded one,
      and every derivative is backed by at least one bonded token. */
  ghost predicate Inv(w: World) {
    var supply := w.state.supply;
    && Sum(w.state.balances) == supply.issued
    && Sum(w.state.claims) == supply.claims
    && supply.claims <= w.liquid + SumSeq(w.unbonding)
    && supply.bonded == w.delegated
    && supply.issued <= supply.bonded
  }

  /** The value of a derivative, `bonded / issued`, does not go down (cross products avoid division). */
  ghost predicate RateKept(before: Supply, after: Supply) {
    0 < before.issued ==> before.bonded * after.issued <= after.bonded * before.issued
  }

  // ----- what the handlers compute -----

  lemma GetBondedIsDelegation(cfg: Config, w: World)
    ensures GetBonded(Query(cfg, w).delegations) ==
            if w.delegated < TWO_128 then Ok(w.delegated) else Panic
  {
    if w.delegated != 0 {
      var bonds := Query(cfg, w).delegations;
      assert bonds[1..] == [];
      assert AddDelegations(bonds[1..], bonds[0].denom, w.delegated) == Ok(w.delegated);
    }
  }

  lemma DispatchSingle(cfg: Config, w: World, m: Message, withdrawn: nat)
    requires m != ExecuteBondAllTokens
    ensures Dispatch(cfg, w, [m], withdrawn) == Perform(cfg, w, m, withdrawn)
  {
    assert [m][1..] == [];
  }

  /** Reinvesting pays out the rewards, then runs the callback and delegates what it asks for. */
  lemma DispatchReinvest(cfg: Config, w: World, withdrawn: nat)
    ensures
      var paid := w.(liquid := w.liquid + withdrawn);
      var called := HandleBondAllTokens(cfg, w.state, Env(cfg.contract, []), Query(cfg, paid));
      Dispatch(cfg, w, [Withdraw, ExecuteBondAllTokens], withdrawn) ==
      if called.IsFailure() then called.PropagateFailure()
      else if called.value.messages == [] then Ok(paid)
      else Perform(cfg, paid.(state := called.value.state), called.value.messages[0], withdrawn)
  {
    var paid := w.(liquid := w.liquid + withdrawn);
    var called := HandleBondAllTokens(cfg, w.state, Env(cfg.contract, []), Query(cfg, paid));
    assert [Withdraw, ExecuteBondAllTokens][1..] == [ExecuteBondAllTokens];
    assert [ExecuteBondAllTokens][1..] == [];
    if called.Ok? && called.value.messages != [] {
      DispatchSingle(cfg, paid.(state := called.value.state), called.value.messages[0], withdrawn);
    }
  }

  lemma {:induction false} PaymentIsPaid(funds: seq<Coin>, denom: string)
    ensures FindPayment(funds, denom).Ok? ==> FindPayment(funds, denom).value <= Paid(funds, denom)
  {
    if funds != [] {
      PaymentIsPaid(funds[1..], denom);
    }
  }

  lemma MintAtOne(payment: nat)
    ensures MulDecimal(payment, DECIMAL_FRACTIONAL).Ok? ==>
              MulDecimal(payment, DECIMAL_FRACTIONAL) == Ok(payment)
  {
    assert payment * DECIMAL_FRACTIONAL / DECIMAL_FRACTIONAL == payment;
  }

  /** Minting rounds down: never more derivatives than tokens paid, and never better than the current rate. */
  lemma MintBounds(supply: Supply, payment: nat)
    requires supply.issued <= supply.bonded
    requires ToMint(supply, supply.bonded, payment).Ok?
    ensures var minted := ToMint(supply, supply.bonded, payment).value;
            && minted <= payment
            && (supply.issued == 0 ==> minted == payment)
            && (0 < supply.issued ==> minted * supply.bonded <= payment * supply.issued)
  {
    if supply.issued == 0 {
      MintAtOne(payment);
    } else {
      var minted := ToMint(supply, supply.bonded, payment).value;
      FloorRatio(payment, supply.issued, supply.bonded);
      MulMono(supply.issued, supply.bonded, payment);
      CancelFactor(minted, payment, supply.bonded);
    }
  }

  lemma BondKeepsRate(supply: Supply, payment: nat)
    requires supply.issued <= supply.bonded
    requires ToMint(supply, supply.bonded, payment).Ok?
    ensures var minted := ToMint(supply, supply.bonded, payment).value;
            var after := Supply(supply.issued + minted, supply.bonded + payment, supply.claims);
            after.issued <= after.bonded && RateKept(supply, after)
  {
    MintBounds(supply, payment);
    var minted := ToMint(supply, supply.bonded, payment).value;
    assert supply.bonded * (supply.issued + minted) == supply.bonded * supply.issued + minted * supply.bonded;
    assert (supply.bonded + payment) * supply.issued == supply.bonded * supply.issued + payment * supply.issued;
  }

  /** Redeeming rounds down, so those who stay keep at least their share. */
  lemma RedeemKeepsRate(supply: Supply, remainder: nat)
    requires supply.issued <= supply.bonded
    requires Redeem(supply, supply.bonded, remainder).Ok?
    ensures var (after, unbond) := Redeem(supply, supply.bonded, remainder).value;
            && unbond * supply.issued <= remainder * supply.bonded
            && after.issued <= after.bonded
            && RateKept(supply, after)
  {
    var (after, unbond) := Redeem(supply, supply.bonded, remainder).value;
    FloorRatio(remainder, supply.bonded, supply.issued);
    assert supply.bonded * after.issued == supply.bonded * supply.issued - remainder * supply.bonded;
    assert after.bonded * supply.issued == supply.bonded * supply.issued - unbond * supply.issued;
    MulMono(supply.issued, supply.bonded, after.issued);
    CancelFactor(after.issued, after.bonded, supply.issued);
  }

  lemma TakeTaxedTotal(m: Ledger, sender: CanonicalAddr, owner: CanonicalAddr, amount: nat, tax: nat)
    requires TakeTaxed(m, sender, owner, amount, tax).Ok?
    ensures Sum(TakeTaxed(m, sender, owner, amount, tax).value) == Sum(m) - amount + tax
    ensures amount <= Get(m, sender)
  {
    var left := m[sender := Get(m, sender) - amount];
    SumUpdate(m, sender, Get(m, sender) - amount);
    if tax > 0 {
      SumUpdate(left, owner, Get(left, owner) + tax);
    }
  }

  // ----- the net effect of a successful transaction on the whole world -----

  /** `paid` tokens came in, `payment` of them were bonded for `minted` derivatives. */
  ghost predicate Bonded(w: World, after: World, account: CanonicalAddr, paid: nat, payment: nat, minted: nat) {
    var supply := w.state.supply;
    && payment <= paid
    && after.state.balances == w.state.balances[account := Get(w.state.balances, account) + minted]
    && after.state.claims == w.state.claims
    && after.state.supply == Supply(supply.issued + minted, supply.bonded + payment, supply.claims)
    && after.liquid == w.liquid + paid - payment
    && after.delegated == w.delegated + payment
    && after.unbonding == w.unbonding
  }

  ghost predicate Unbonded(w: World, after: World, account: CanonicalAddr, owner: CanonicalAddr,
                           amount: nat, tax: nat, worth: nat)
  {
    var supply := w.state.supply;
    && tax <= amount
    && TakeTaxed(w.state.balances, account, owner, amount, tax) == Ok(after.state.balances)
    && after.state.claims == w.state.claims[account := Get(w.state.claims, account) + worth]
    && Redeem(supply, supply.bonded, amount - tax) == Ok((after.state.supply, worth))
    && w.liquid <= after.liquid
    && after.delegated == w.delegated - worth
    && after.unbonding == w.unbonding + [worth]
  }

  /** What a bond that succeeds writes and emits. */
  lemma BondHandled(cfg: Config, s: State, env: Env, q: Querier)
    requires HandleBond(cfg, s, env, q).Ok?
    ensures cfg.canonical(env.sender).Ok? && FindPayment(env.sentFunds, cfg.invest.bondDenom).Ok?
    ensures
      var account, payment := cfg.canonical(env.sender).value, FindPayment(env.sentFunds, cfg.invest.bondDenom).value;
      var mint := ToMint(s.supply, s.supply.bonded, payment);
      && mint.Ok?
      && HandleBond(cfg, s, env, q).value ==
         Response(State(s.balances[account := Get(s.balances, account) + mint.value], s.claims,
                        Supply(s.supply.issued + mint.value, s.supply.bonded + payment, s.supply.claims)),
                  [Delegate(payment)])
  {
  }

  /** A handler that emits one message, other than the callback. */
  lemma SettleSingle(cfg: Config, w: World, response: Response, m: Message, withdrawn: nat)
    requires response.messages == [m] && m != ExecuteBondAllTokens
    ensures Settle(cfg, w, Ok(response), withdrawn) == Perform(cfg, w.(state := response.state), m, withdrawn)
  {
    DispatchSingle(cfg, w.(state := response.state), m, withdrawn);
  }

  lemma BondEffect(cfg: Config, w: World, after: World, sender: HumanAddr, funds: seq<Coin>, withdrawn: nat)
    requires w.state.supply.bonded == w.delegated
    requires Execute(cfg, w, sender, funds, Bond, withdrawn) == Ok(after)
    ensures cfg.canonical(sender).Ok? && FindPayment(funds, cfg.invest.bondDenom).Ok?
    ensures
      var payment := FindPayment(funds, cfg.invest.bondDenom).value;
      var mint := ToMint(w.state.supply, w.state.supply.bonded, payment);
      mint.Ok? && Bonded(w, after, cfg.canonical(sender).value, Paid(funds, cfg.invest.bondDenom), payment, mint.value)
  {
    var funded := w.(liquid := w.liquid + Paid(funds, cfg.invest.bondDenom));
    BondHandled(cfg, w.state, Env(sender, funds), Query(cfg, funded));
    PaymentIsPaid(funds, cfg.invest.bondDenom);
    var response := HandleBond(cfg, w.state, Env(sender, funds), Query(cfg, funded)).value;
    SettleSingle(cfg, funded, response, response.messages[0], withdrawn);
  }

  /** What an unbond that succeeds writes and emits. */
  lemma UnbondHandled(cfg: Config, s: State, env: Env, q: Querier, amount: U128)
    requires HandleUnbond(cfg, s, env, q, amount).Ok?
    ensures cfg.canonical(env.sender).Ok? && MulDecimal(amount, cfg.invest.exitTax).Ok?
    ensures
      var account, tax := cfg.canonical(env.sender).value, MulDecimal(amount, cfg.invest.exitTax).value;
      var taken := TakeTaxed(s.balances, account, cfg.invest.owner, amount, tax);
      && tax <= amount && taken.Ok?
      && var redeemed := Redeem(s.supply, s.supply.bonded, amount - tax);
         && redeemed.Ok?
         && var (supply, worth) := redeemed.value;
            HandleUnbond(cfg, s, env, q, amount).value ==
            Response(State(taken.value, s.claims[account := Get(s.claims, account) + worth], supply), [Undelegate(worth)])
  {
  }

  lemma UnbondEffect(cfg: Config, w: World, after: World, sender: HumanAddr, funds: seq<Coin>, amount: U128,
                     withdrawn: nat)
    requires w.state.supply.bonded == w.delegated
    requires Execute(cfg, w, sender, funds, Unbond(amount), withdrawn) == Ok(after)
    ensures cfg.canonical(sender).Ok? && MulDecimal(amount, cfg.invest.exitTax).Ok?
    ensures exists worth ::
              Unbonded(w, after, cfg.canonical(sender).value, cfg.invest.owner,
                       amount, MulDecimal(amount, cfg.invest.exitTax).value, worth)
  {
    var funded := w.(liquid := w.liquid + Paid(funds, cfg.invest.bondDenom));
    UnbondHandled(cfg, w.state, Env(sender, funds), Query(cfg, funded), amount);
    var response := HandleUnbond(cfg, w.state, Env(sender, funds), Query(cfg, funded), amount).value;
    SettleSingle(cfg, funded, response, response.messages[0], withdrawn);
    assert Unbonded(w, after, cfg.canonical(sender).value, cfg.invest.owner, amount,
                    MulDecimal(amount, cfg.invest.exitTax).value, response.messages[0].amount);
  }

  /** What a claim that succeeds writes and emits. */
  lemma ClaimHandled(cfg: Config, s: State, env: Env, q: Querier)
    requires HandleClaim(cfg, s, env, q).Ok?
    ensures cfg.canonical(env.sender).Ok?
    ensures
      var account := cfg.canonical(env.sender).value;
      var sent := Min(q.balance, Get(s.claims, account));
      && sent <= s.supply.claims
      && HandleClaim(cfg, s, env, q).value ==
         Response(s.(claims := s.claims[account := Get(s.claims, account) - sent],
                     supply := s.supply.(claims := s.supply.claims - sent)),
                  [Send(env.sender, sent)])
  {
  }

  /** Reinvesting with `paid` in hand: the whole surplus over the claims is bonded, unless it is too small. */
  function Reinvested(cfg: Config, paid: World): Outcome<World> {
    var supply := paid.state.supply;
    if paid.liquid < supply.claims + cfg.invest.minWithdrawal then Ok(paid)
    else
      var surplus := paid.liquid - supply.claims;
      if supply.bonded + surplus >= TWO_128 then Panic
      else
        Ok(paid.(liquid := supply.claims, delegated := paid.delegated + surplus,
                 state := paid.state.(supply := supply.(bonded := supply.bonded + surplus))))
  }

  lemma ReinvestDispatches(cfg: Config, w: World, sender: HumanAddr, funds: seq<Coin>, withdrawn: nat)
    ensures Execute(cfg, w, sender, funds, Reinvest, withdrawn) ==
            Dispatch(cfg, w.(liquid := w.liquid + Paid(funds, cfg.invest.bondDenom)),
                     [Withdraw, ExecuteBondAllTokens], withdrawn)
  {
    var funded := w.(liquid := w.liquid + Paid(funds, cfg.invest.bondDenom));
    assert funded.(state := w.state) == funded;
  }

  lemma CallbackReinvests(cfg: Config, w: World, withdrawn: nat)
    ensures Dispatch(cfg, w, [Withdraw, ExecuteBondAllTokens], withdrawn) ==
            Reinvested(cfg, w.(liquid := w.liquid + withdrawn))
  {
    DispatchReinvest(cfg, w, withdrawn);
  }

  lemma ReinvestEffect(cfg: Config, w: World, sender: HumanAddr, funds: seq<Coin>, withdrawn: nat)
    ensures Execute(cfg, w, sender, funds, Reinvest, withdrawn) ==
            Reinvested(cfg, w.(liquid := w.liquid + Paid(funds, cfg.invest.bondDenom) + withdrawn))
  {
    ReinvestDispatches(cfg, w, sender, funds, withdrawn);
    CallbackReinvests(cfg, w.(liquid := w.liquid + Paid(funds, cfg.invest.bondDenom)), withdrawn);
  }

  // ----- every transaction keeps the invariant and the rate -----

  lemma MovedTotal(m: Ledger, from: CanonicalAddr, to: CanonicalAddr, amount: nat)
    requires Debit(m, from, amount).Ok? && Credit(Debit(m, from, amount).value, to, amount).Ok?
    ensures Sum(Credit(Debit(m, from, amount).value, to, amount).value) == Sum(m)
  {
    var debited := Debit(m, from, amount).value;
    SumUpdate(m, from, Get(m, from) - amount);
    SumUpdate(debited, to, Get(debited, to) + amount);
  }

  lemma TransferStep(cfg: Config, w: World, sender: HumanAddr, funds: seq<Coin>, rcpt: HumanAddr, amount: U128,
                     withdrawn: nat)
    requires Inv(w) && Execute(cfg, w, sender, funds, Transfer(rcpt, amount), withdrawn).Ok?
    ensures var after := Execute(cfg, w, sender, funds, Transfer(rcpt, amount), withdrawn).value;
            Inv(after) && after.state.supply == w.state.supply
  {
    MovedTotal(w.state.balances, cfg.canonical(sender).value, cfg.canonical(rcpt).value, amount);
  }

  lemma BondedKeeps(w: World, after: World, account: CanonicalAddr, paid: nat, payment: nat, minted: nat)
    requires Inv(w) && Bonded(w, after, account, paid, payment, minted)
    requires ToMint(w.state.supply, w.state.supply.bonded, payment) == Ok(minted)
    ensures Inv(after) && RateKept(w.state.supply, after.state.supply)
  {
    BondKeepsRate(w.state.supply, payment);
    SumUpdate(w.state.balances, account, Get(w.state.balances, account) + minted);
  }

  lemma UnbondedKeeps(w: World, after: World, account: CanonicalAddr, owner: CanonicalAddr,
                      amount: nat, tax: nat, worth: nat)
    requires Inv(w) && Unbonded(w, after, account, owner, amount, tax, worth)
    ensures Inv(after) && RateKept(w.state.supply, after.state.supply)
  {
    RedeemKeepsRate(w.state.supply, amount - tax);
    TakeTaxedTotal(w.state.balances, account, owner, amount, tax);
    SumUpdate(w.state.claims, account, Get(w.state.claims, account) + worth);
    SumSeqAppend(w.unbonding, [worth]);
  }

  lemma ClaimStep(cfg: Config, w: World, sender: HumanAddr, funds: seq<Coin>, withdrawn: nat)
    requires Inv(w) && sender != cfg.contract && Execute(cfg, w, sender, funds, Claim, withdrawn).Ok?
    ensures var after := Execute(cfg, w, sender, funds, Claim, withdrawn).value;
            && Inv(after)
            && after.state.supply.issued == w.state.supply.issued
            && after.state.supply.bonded == w.state.supply.bonded
  {
    var funded := w.(liquid := w.liquid + Paid(funds, cfg.invest.bondDenom));
    ClaimHandled(cfg, w.state, Env(sender, funds), Query(cfg, funded));
    var account := cfg.canonical(sender).value;
    var sent := Min(funded.liquid, Get(w.state.claims, account));
    SumUpdate(w.state.claims, account, Get(w.state.claims, account) - sent);
    var response := HandleClaim(cfg, w.state, Env(sender, funds), Query(cfg, funded)).value;
    SettleSingle(cfg, funded, response, Send(sender, sent), withdrawn);
  }

  lemma ReinvestStep(cfg: Config, w: World, sender: HumanAddr, funds: seq<Coin>, withdrawn: nat)
    requires Inv(w) && Execute(cfg, w, sender, funds, Reinvest, withdrawn).Ok?
    ensures var after := Execute(cfg, w, sender, funds, Reinvest, withdrawn).value;
            && Inv(after)
            && after.state.supply.issued == w.state.supply.issued
            && w.state.supply.bonded <= after.state.supply.bonded
  {
    ReinvestEffect(cfg, w, sender, funds, withdrawn);
  }

  lemma MoreBondedKeepsRate(before: Supply, after: Supply)
    requires after.issued == before.issued && before.bonded <= after.bonded
    ensures RateKept(before, after)
  {
    MulMono(before.bonded, after.bonded, before.issued);
  }

  lemma TransactionStep(cfg: Config, w: World, sender: HumanAddr, funds: seq<Coin>, msg: HandleMsg, withdrawn: nat)
    requires Inv(w) && sender != cfg.contract && Execute(cfg, w, sender, funds, msg, withdrawn).Ok?
    ensures var after := Execute(cfg, w, sender, funds, msg, withdrawn).value;
            Inv(after) && RateKept(w.state.supply, after.state.supply)
  {
    var after := Execute(cfg, w, sender, funds, msg, withdrawn).value;
    match msg
    case Transfer(rcpt, amount) =>
      TransferStep(cfg, w, sender, funds, rcpt, amount, withdrawn);
    case Bond =>
      BondEffect(cfg, w, after, sender, funds, withdrawn);
      var payment := FindPayment(funds, cfg.invest.bondDenom).value;
      BondedKeeps(w, after, cfg.canonical(sender).value, Paid(funds, cfg.invest.bondDenom), payment,
                  ToMint(w.state.supply, w.state.supply.bonded, payment).value);
    case Unbond(amount) =>
      UnbondEffect(cfg, w, after, sender, funds, amount, withdrawn);
      var account, tax := cfg.canonical(sender).value, MulDecimal(amount, cfg.invest.exitTax).value;
      var worth :| Unbonded(w, after, account, cfg.invest.owner, amount, tax, worth);
      UnbondedKeeps(w, after, account, cfg.invest.owner, amount, tax, worth);
    case Claim =>
      ClaimStep(cfg, w, sender, funds, withdrawn);
      MoreBondedKeepsRate(w.state.supply, after.state.supply);
    case Reinvest =>
      ReinvestStep(cfg, w, sender, funds, withdrawn);
      MoreBondedKeepsRate(w.state.supply, after.state.supply);
    case BondAllTokens =>
  }

  lemma StepKeeps(cfg: Config, w: World, e: Event)
    requires Inv(w)
    ensures Inv(Step(cfg, w, e)) && RateKept(w.state.supply, Step(cfg, w, e).state.supply)
  {
    match e
    case Transaction(sender, funds, msg, withdrawn, refused) =>
      if Execute(cfg, w, sender, funds, msg, withdrawn).Ok? && sender != cfg.contract {
        TransactionStep(cfg, w, sender, funds, msg, withdrawn);
      }
    case TokensArrive(amount) =>
    case UnbondingMatures(entry) =>
      if entry < |w.unbonding| {
        SumSeqRemove(w.unbonding, entry);
      }
  }

  lemma {:induction false} RunKeeps(cfg: Config, w: World, es: seq<Event>)
    requires Inv(w)
    ensures Inv(Run(cfg, w, es))
    decreases |es|
  {
    if es != [] {
      StepKeeps(cfg, w, es[0]);
      RunKeeps(cfg, Step(cfg, w, es[0]), es[1..]);
    }
  }

  /** Solvency, balanced books, true delegation and full backing, after any run from deployment. */
  lemma Solvency(cfg: Config, es: seq<Event>)
    ensures Inv(Run(cfg, GENESIS, es))
  {
    RunKeeps(cfg, GENESIS, es);
  }

  // ----- who may call what, and what is refused -----

  /** The reinvestment callback is private: signed by anybody but the contract itself, it is refused. */
  lemma CallbackIsPrivate(cfg: Config, w: World, sender: HumanAddr, funds: seq<Coin>, withdrawn: nat)
    requires sender != cfg.contract
    ensures Execute(cfg, w, sender, funds, BondAllTokens, withdrawn) == Err(Unauthorized)
  {
  }

  /** The payment is the first coin in the bond denomination, and there must be one. */
  lemma {:induction false} FindPaymentExact(funds: seq<Coin>, denom: string)
    ensures FindPayment(funds, denom).Ok? <==> exists i :: 0 <= i < |funds| && funds[i].denom == denom
    ensures FindPayment(funds, denom).Ok? ==>
              exists i :: 0 <= i < |funds| && funds[i] == Coin(denom, FindPayment(funds, denom).value) &&
                forall j :: 0 <= j < i ==> funds[j].denom != denom
  {
    if funds != [] {
      if funds[0].denom == denom {
        assert funds[0] == Coin(denom, FindPayment(funds, denom).value);
      } else {
        var rest := funds[1..];
        FindPaymentExact(rest, denom);
        if FindPayment(rest, denom).Ok? {
          var i :| 0 <= i < |rest| && rest[i] == Coin(denom, FindPayment(rest, denom).value) &&
            forall j :: 0 <= j < i ==> rest[j].denom != denom;
          assert funds[i + 1] == rest[i];
          assert forall j :: 0 < j < i + 1 ==> funds[j] == rest[j - 1];
        } else {
          assert forall i :: 0 < i < |funds| ==> funds[i] == rest[i - 1];
        }
      }
    }
  }

  function Amounts(bonds: seq<Coin>): seq<nat> {
    seq(|bonds|, i requires 0 <= i < |bonds| => bonds[i].amount)
  }

  lemma {:induction false} AddDelegationsExact(bonds: seq<Coin>, denom: string, acc: nat)
    requires acc < TWO_128
    ensures AddDelegations(bonds, denom, acc).Ok? <==>
            (forall i :: 0 <= i < |bonds| ==> bonds[i].denom == denom) && acc + SumSeq(Amounts(bonds)) < TWO_128
    ensures AddDelegations(bonds, denom, acc).Ok? ==>
              AddDelegations(bonds, denom, acc).value == acc + SumSeq(Amounts(bonds))
  {
    if bonds != [] {
      var rest := bonds[1..];
      assert Amounts(bonds) == [bonds[0].amount] + Amounts(rest);
      SumSeqAppend([bonds[0].amount], Amounts(rest));
      assert [bonds[0].amount][1..] == [];
      assert forall i :: 0 < i < |bonds| ==> bonds[i] == rest[i - 1];
      if acc + bonds[0].amount < TWO_128 {
        AddDelegationsExact(rest, denom, acc + bonds[0].amount);
      }
    }
  }

  /** The bonded amount is the sum of all delegations, refused unless they share a denomination. */
  lemma GetBondedExact(bonds: seq<Coin>)
    ensures GetBonded(bonds).Ok? <==>
            && (forall i, j :: 0 <= i < j < |bonds| ==> bonds[i].denom == bonds[j].denom)
            && SumSeq(Amounts(bonds)) < TWO_128
    ensures GetBonded(bonds).Ok? ==> GetBonded(bonds).value == SumSeq(Amounts(bonds))
  {
    if bonds != [] {
      AddDelegationsExact(bonds, bonds[0].denom, 0);
    }
  }

  /** When the real delegation is not the recorded one, as after slashing, nobody can bond or unbond. */
  lemma StaleBondsRefused(cfg: Config, s: State, env: Env, q: Querier, amount: U128)
    requires GetBonded(q.delegations) != Ok(s.supply.bonded)
    ensures !HandleBond(cfg, s, env, q).Ok? && !HandleUnbond(cfg, s, env, q, amount).Ok?
  {
  }
}
