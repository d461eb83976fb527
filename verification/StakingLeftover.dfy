/** The one way to gain by bonding: rewards reinvested before anything is issued fall to the first bonder. */
module StakingLeftover {
  import opened Outcomes
  import opened Sums
  import opened Ratios
  import opened Uint128
  import opened Staking
  import opened StakingChain
  import opened StakingTheorems
  import opened StakingValue
  import opened StakingProgress
  import opened StakingAccounts

  /** A bond into leftover tokens, with nothing issued. */
  lemma BondIntoLeftover(cfg: Config, w: World, user: HumanAddr, account: CanonicalAddr, leftover: nat, payment: nat)
    requires w == World(State(map[], map[], Supply(0, leftover, 0)), 0, leftover, [])
    requires cfg.canonical(user) == Ok(account) && leftover + payment < TWO_64
    ensures
      var funds := [Coin(cfg.invest.bondDenom, payment)];
      && Execute(cfg, w, user, funds, Bond, 0).Ok?
      && var after := Execute(cfg, w, user, funds, Bond, 0).value;
         && Inv(after)
         && Get(after.state.balances, account) == payment
         && after.state.supply == Supply(payment, leftover + payment, 0)
         && after.state.claims == map[]
         && after.liquid == 0 && after.delegated == leftover + payment && after.unbonding == []
  {
    var funds := [Coin(cfg.invest.bondDenom, payment)];
    assert funds[1..] == [];
    assert Paid(funds, cfg.invest.bondDenom) == payment;
    assert Inv(w);
    BondSucceeds(cfg, w, user, funds);
    var after := Execute(cfg, w, user, funds, Bond, 0).value;
    BondMints(cfg, w, after, user, funds, account);
    BondEffect(cfg, w, after, user, funds, 0);
    BondedKeeps(w, after, account, payment, payment, payment);
  }

  /** Unbonding everything that was minted into leftover tokens, without exit tax. */
  lemma UnbondLeftover(cfg: Config, w: World, user: HumanAddr, account: CanonicalAddr, leftover: nat, payment: U128)
    requires Inv(w) && cfg.canonical(user) == Ok(account) && cfg.invest.exitTax == 0
    requires Get(w.state.balances, account) == payment && w.state.claims == map[]
    requires w.state.supply == Supply(payment, leftover + payment, 0)
    requires w.liquid == 0 && w.delegated == leftover + payment < TWO_64 && w.unbonding == []
    requires 0 < payment && cfg.invest.minWithdrawal <= payment
    ensures Execute(cfg, w, user, [], Unbond(payment), 0).Ok?
    ensures Get(Execute(cfg, w, user, [], Unbond(payment), 0).value.state.claims, account) == leftover + payment
  {
    PositiveUnbondSucceeds(cfg, w, user, payment);
    var after := Execute(cfg, w, user, [], Unbond(payment), 0).value;
    UnbondCharges(cfg, w, after, user, [], payment, 0, account);
    FloorExact(leftover + payment, payment);
    assert payment * (leftover + payment) == (leftover + payment) * payment;
  }

  function FirstBonder(cfg: Config, user: HumanAddr, reward: nat, payment: U128): seq<Event> {
    [ TokensArrive(reward),
      Transaction(user, [], Reinvest, 0, false),
      Transaction(user, [Coin(cfg.invest.bondDenom, payment)], Bond, 0, false),
      Transaction(user, [], Unbond(payment), 0, false) ]
  }

  /** A whole run from deployment in which bonding and unbonding gains: a reward arrives and is reinvested,
      then the first bonder bonds, unbonds, and has a claim on the reward as well. */
  lemma LeftoverIsClaimed(cfg: Config, user: HumanAddr, account: CanonicalAddr, reward: nat, payment: U128)
    requires user != cfg.contract && cfg.canonical(user) == Ok(account) && cfg.invest.exitTax == 0
    requires 0 < reward && 0 < payment && reward + payment < TWO_64
    requires cfg.invest.minWithdrawal <= reward && cfg.invest.minWithdrawal <= payment
    ensures Get(Run(cfg, GENESIS, FirstBonder(cfg, user, reward, payment)).state.claims, account) == reward + payment
  {
    var es := FirstBonder(cfg, user, reward, payment);
    LeftoverIsReachable(cfg, user, reward);
    var w := Run(cfg, GENESIS, es[..2]);
    assert es[..2] == [TokensArrive(reward), Transaction(user, [], Reinvest, 0, false)];
    BondIntoLeftover(cfg, w, user, account, reward, payment);
    var w1 := Step(cfg, w, es[2]);
    UnbondLeftover(cfg, w1, user, account, reward, payment);
    var w2 := Step(cfg, w1, es[3]);
    assert Run(cfg, w2, []) == w2;
    RunCons(cfg, w1, es[3], []);
    RunCons(cfg, w, es[2], [es[3]]);
    RunCons(cfg, Step(cfg, GENESIS, es[0]), es[1], es[2..]);
    RunCons(cfg, GENESIS, es[0], es[1..]);
    RunCons(cfg, Step(cfg, GENESIS, es[0]), es[1], []);
    RunCons(cfg, GENESIS, es[0], [es[1]]);
    assert [es[0]] + [es[1]] == es[..2] && [es[1]] + [] == [es[1]] && [es[3]] + [] == [es[3]];
    assert [es[2]] + [es[3]] == es[2..] && [es[1]] + es[2..] == es[1..] && [es[0]] + es[1..] == es;
  }

  lemma RunCons(cfg: Config, w: World, e: Event, es: seq<Event>)
    ensures Run(cfg, w, [e] + es) == Run(cfg, Step(cfg, w, e), es)
  {
    assert ([e] + es)[1..] == es;
  }
}
