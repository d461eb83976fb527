/** The contract as it runs: handlers that overwrite the stored ledgers one after the other. Each is
    proved against its function in `Staking`, including which failure it reports. What an unfinished
    handler leaves behind is not stated, because the host discards it. */
module StakingContract {
  import opened Outcomes
  import opened Sums
  import opened Uint128
  import opened Staking

  class Contract {
    const cfg: Config
    var balances: Ledger
    var claims: Ledger
    var supply: Supply

    function View(): State
      reads this
    {
      State(balances, claims, supply)
    }

    constructor (cfg: Config)
      ensures this.cfg == cfg && View() == INITIAL
    {
      this.cfg := cfg;
      balances, claims, supply := map[], map[], Supply(0, 0, 0);
    }

    method TransferTokens(env: Env, recipient: HumanAddr, send: U128) returns (r: Outcome<seq<Message>>)
      modifies this`balances
      ensures Reports(r, HandleTransfer(cfg, old(View()), env, recipient, send), View())
    {
      var rcpt := cfg.canonical(recipient);
      if rcpt.IsFailure() { return rcpt.PropagateFailure(); }
      var sender := cfg.canonical(env.sender);
      if sender.IsFailure() { return sender.PropagateFailure(); }
      var left := Sub(Get(balances, sender.value), send);
      if left.IsFailure() { return left.PropagateFailure(); }
      balances := balances[sender.value := left.value];
      var total := Add(Get(balances, rcpt.value), send);
      if total.IsFailure() { return total.PropagateFailure(); }
      balances := balances[rcpt.value := total.value];
      r := Ok([]);
    }

    method BondTokens(env: Env, q: Querier) returns (r: Outcome<seq<Message>>)
      modifies this`balances, this`supply
      ensures Reports(r, HandleBond(cfg, old(View()), env, q), View())
    {
      var sender := cfg.canonical(env.sender);
      if sender.IsFailure() { return sender.PropagateFailure(); }
      var payment := FindPayment(env.sentFunds, cfg.invest.bondDenom);
      if payment.IsFailure() { return payment.PropagateFailure(); }
      var bonded := GetBonded(q.delegations);
      if bonded.IsFailure() { return bonded.PropagateFailure(); }
      var checked := AssertBonds(supply, bonded.value);
      if checked.IsFailure() { return checked.PropagateFailure(); }
      var toMint := ToMint(supply, bonded.value, payment.value);
      if toMint.IsFailure() { return toMint.PropagateFailure(); }
      var newBonded := Add(bonded.value, payment.value);
      if newBonded.IsFailure() { return newBonded.PropagateFailure(); }
      supply := supply.(bonded := newBonded.value);
      var newIssued := Add(supply.issued, toMint.value);
      if newIssued.IsFailure() { return newIssued.PropagateFailure(); }
      supply := supply.(issued := newIssued.value);
      var balance := Add(Get(balances, sender.value), toMint.value);
      if balance.IsFailure() { return balance.PropagateFailure(); }
      balances := balances[sender.value := balance.value];
      r := Ok([Delegate(payment.value)]);
    }

    method UnbondTokens(env: Env, q: Querier, amount: U128) returns (r: Outcome<seq<Message>>)
      modifies this
      ensures Reports(r, HandleUnbond(cfg, old(View()), env, q, amount), View())
    {
      var sender := cfg.canonical(env.sender);
      if sender.IsFailure() { return sender.PropagateFailure(); }
      if amount < cfg.invest.minWithdrawal {
        return Err(GenericErr("Must unbond at least the minimum"));
      }
      var tax := MulDecimal(amount, cfg.invest.exitTax);
      if tax.IsFailure() { return tax.PropagateFailure(); }
      var left := Sub(Get(balances, sender.value), amount);
      if left.IsFailure() { return left.PropagateFailure(); }
      balances := balances[sender.value := left.value];
      if tax.value > 0 {
        var cut := Add(Get(balances, cfg.invest.owner), tax.value);
        if cut.IsFailure() { return cut.PropagateFailure(); }
        balances := balances[cfg.invest.owner := cut.value];
      }
      var bonded := GetBonded(q.delegations);
      if bonded.IsFailure() { return bonded.PropagateFailure(); }
      var remainder := Sub(amount, tax.value);
      if remainder.IsFailure() { return remainder.PropagateFailure(); }
      var checked := AssertBonds(supply, bonded.value);
      if checked.IsFailure() { return checked.PropagateFailure(); }
      var unbond := MultiplyRatio(remainder.value, bonded.value, supply.issued);
      if unbond.IsFailure() { return unbond.PropagateFailure(); }
      var newBonded := Sub(bonded.value, unbond.value);
      if newBonded.IsFailure() { return newBonded.PropagateFailure(); }
      supply := supply.(bonded := newBonded.value);
      var newIssued := Sub(supply.issued, remainder.value);
      if newIssued.IsFailure() { return newIssued.PropagateFailure(); }
      supply := supply.(issued := newIssued.value);
      var newClaims := Add(supply.claims, unbond.value);
      if newClaims.IsFailure() { return newClaims.PropagateFailure(); }
      supply := supply.(claims := newClaims.value);
      var claim := Add(Get(claims, sender.value), unbond.value);
      if claim.IsFailure() { return claim.PropagateFailure(); }
      claims := claims[sender.value := claim.value];
      r := Ok([Undelegate(unbond.value)]);
    }

    method ClaimTokens(env: Env, q: Querier) returns (r: Outcome<seq<Message>>)
      modifies this`claims, this`supply
      ensures Reports(r, HandleClaim(cfg, old(View()), env, q), View())
    {
      if q.balance < cfg.invest.minWithdrawal {
        return Err(GenericErr("Insufficient balance in contract to process claim"));
      }
      var sender := cfg.canonical(env.sender);
      if sender.IsFailure() { return sender.PropagateFailure(); }
      if sender.value !in claims {
        return Err(GenericErr("no claim for this address"));
      }
      var toSend := Min(q.balance, claims[sender.value]);
      var left := Sub(claims[sender.value], toSend);
      if left.IsFailure() { return left.PropagateFailure(); }
      claims := claims[sender.value := left.value];
      var total := Sub(supply.claims, toSend);
      if total.IsFailure() { return total.PropagateFailure(); }
      supply := supply.(claims := total.value);
      r := Ok([Send(env.sender, toSend)]);
    }

    method BondAll(env: Env, q: Querier) returns (r: Outcome<seq<Message>>)
      modifies this`supply
      ensures Reports(r, HandleBondAllTokens(cfg, old(View()), env, q), View())
      ensures r == Err(Unauthorized) <==> env.sender != cfg.contract
      ensures env.sender != cfg.contract ==> View() == old(View())
    {
      if env.sender != cfg.contract {
        return Err(Unauthorized);
      }
      var surplus := Sub(q.balance, supply.claims);
      if surplus.IsFailure() { return Ok([]); }
      var spare := Sub(surplus.value, cfg.invest.minWithdrawal);
      if spare.IsFailure() { return Ok([]); }
      var bonded := Add(supply.bonded, surplus.value);
      if bonded.IsFailure() { return bonded.PropagateFailure(); }
      supply := supply.(bonded := bonded.value);
      r := Ok([Delegate(surplus.value)]);
    }
  }

  /** A handler run matches its function: same messages and new state, or the same failure. */
  ghost predicate Reports(r: Outcome<seq<Message>>, expected: Outcome<Response>, after: State) {
    match r
    case Ok(messages) => expected == Ok(Response(after, messages))
    case Err(error) => expected == Err(error)
    case Panic => expected == Panic
  }
}
