/** The staking-derivative contract as functions from a stored state to an outcome: the new state and
    the messages the host must dispatch, an error, or a panic. */
module Staking {
  import opened Outcomes
  import opened Sums
  import opened Uint128

  type HumanAddr = string
  type CanonicalAddr = seq<nat>
  type Ledger = map<CanonicalAddr, nat>

  datatype Coin = Coin(denom: string, amount: nat)

  datatype InvestmentInfo = InvestmentInfo(
    owner: CanonicalAddr,
    bondDenom: string,
    exitTax: U128,
    validator: HumanAddr,
    minWithdrawal: U128)

  datatype Supply = Supply(issued: nat, bonded: nat, claims: nat)

  datatype State = State(balances: Ledger, claims: Ledger, supply: Supply)

  /** What is fixed for one deployed contract: its address, its settings, and the host's address codec. */
  datatype Config = Config(
    contract: HumanAddr,
    invest: InvestmentInfo,
    canonical: HumanAddr -> Outcome<CanonicalAddr>)

  datatype Env = Env(sender: HumanAddr, sentFunds: seq<Coin>)

  /** What the chain answers: the contract's delegations and its liquid balance in the bond denomination. */
  datatype Querier = Querier(delegations: seq<Coin>, balance: nat)

  datatype HandleMsg =
    | Transfer(recipient: HumanAddr, amount: U128)
    | Bond
    | Unbond(amount: U128)
    | Claim
    | Reinvest
    | BondAllTokens

  datatype Message =
    | Delegate(amount: nat)
    | Undelegate(amount: nat)
    | Send(to: HumanAddr, amount: nat)
    | Withdraw
    | ExecuteBondAllTokens

  datatype Response = Response(state: State, messages: seq<Message>)

  /** The settings `init` stores; it refuses a validator outside the current set. */
  function Instantiate(
      canonical: HumanAddr -> Outcome<CanonicalAddr>, sender: HumanAddr, validators: seq<HumanAddr>,
      validator: HumanAddr, bondDenom: string, exitTax: U128, minWithdrawal: U128): (r: Outcome<InvestmentInfo>)
    ensures r.Ok? <==> validator in validators && canonical(sender).Ok?
    ensures r.Ok? ==> canonical(sender) == Ok(r.value.owner)
    ensures r.Ok? ==> r.value == InvestmentInfo(r.value.owner, bondDenom, exitTax, validator, minWithdrawal)
  {
    if validator !in validators then Err(GenericErr("not in the current validator set"))
    else
      var owner :- canonical(sender);
      Ok(InvestmentInfo(owner, bondDenom, exitTax, validator, minWithdrawal))
  }

  const INITIAL: State := State(map[], map[], Supply(0, 0, 0))

  function Debit(m: Ledger, k: CanonicalAddr, amount: nat): Outcome<Ledger> {
    var left :- Sub(Get(m, k), amount);
    Ok(m[k := left])
  }

  function Credit(m: Ledger, k: CanonicalAddr, amount: nat): Outcome<Ledger> {
    var total :- Add(Get(m, k), amount);
    Ok(m[k := total])
  }

  /** Total of the delegations, refused when they are not all in one denomination. */
  function AddDelegations(bonds: seq<Coin>, denom: string, acc: nat): Outcome<nat> {
    if bonds == [] then Ok(acc)
    else if bonds[0].denom != denom then Err(GenericErr("different denoms in bonds"))
    else
      var total :- Add(acc, bonds[0].amount);
      AddDelegations(bonds[1..], denom, total)
  }

  function GetBonded(bonds: seq<Coin>): Outcome<nat> {
    if bonds == [] then Ok(0) else AddDelegations(bonds, bonds[0].denom, 0)
  }

  function AssertBonds(supply: Supply, bonded: nat): Outcome<()> {
    if supply.bonded != bonded then Err(GenericErr("Stored bonded differs from queried bonded")) else Ok(())
  }

  /** The first coin in the bond denomination. */
  function FindPayment(funds: seq<Coin>, denom: string): Outcome<nat> {
    if funds == [] then Err(GenericErr("No tokens sent"))
    else if funds[0].denom == denom then Ok(funds[0].amount)
    else FindPayment(funds[1..], denom)
  }

  function ToMint(supply: Supply, bonded: nat, payment: nat): Outcome<nat> {
    if supply.issued == 0 || bonded == 0 then MulDecimal(payment, DECIMAL_FRACTIONAL)
    else MultiplyRatio(payment, supply.issued, bonded)
  }

  function HandleTransfer(cfg: Config, s: State, env: Env, recipient: HumanAddr, amount: U128): Outcome<Response> {
    var rcpt :- cfg.canonical(recipient);
    var sender :- cfg.canonical(env.sender);
    var debited :- Debit(s.balances, sender, amount);
    var credited :- Credit(debited, rcpt, amount);
    Ok(Response(s.(balances := credited), []))
  }

  function HandleBond(cfg: Config, s: State, env: Env, q: Querier): Outcome<Response> {
    var sender :- cfg.canonical(env.sender);
    var payment :- FindPayment(env.sentFunds, cfg.invest.bondDenom);
    var bonded :- GetBonded(q.delegations);
    var _ :- AssertBonds(s.supply, bonded);
    var minted :- ToMint(s.supply, bonded, payment);
    var newBonded :- Add(bonded, payment);
    var newIssued :- Add(s.supply.issued, minted);
    var balances :- Credit(s.balances, sender, minted);
    Ok(Response(State(balances, s.claims, Supply(newIssued, newBonded, s.supply.claims)), [Delegate(payment)]))
  }

  /** Supply after burning `remainder` derivatives, and the native tokens they are worth. */
  function Redeem(supply: Supply, bonded: nat, remainder: nat): Outcome<(Supply, nat)> {
    var unbond :- MultiplyRatio(remainder, bonded, supply.issued);
    var newBonded :- Sub(bonded, unbond);
    var newIssued :- Sub(supply.issued, remainder);
    var newClaims :- Add(supply.claims, unbond);
    Ok((Supply(newIssued, newBonded, newClaims), unbond))
  }

  /** Takes `amount` from the sender and gives the exit tax, when there is one, to the owner. */
  function TakeTaxed(m: Ledger, sender: CanonicalAddr, owner: CanonicalAddr, amount: nat, tax: nat): Outcome<Ledger> {
    var debited :- Debit(m, sender, amount);
    if tax > 0 then Credit(debited, owner, tax) else Ok(debited)
  }

  function HandleUnbond(cfg: Config, s: State, env: Env, q: Querier, amount: U128): Outcome<Response> {
    var sender :- cfg.canonical(env.sender);
    if amount < cfg.invest.minWithdrawal then Err(GenericErr("Must unbond at least the minimum"))
    else
      var tax :- MulDecimal(amount, cfg.invest.exitTax);
      var balances :- TakeTaxed(s.balances, sender, cfg.invest.owner, amount, tax);
      var bonded :- GetBonded(q.delegations);
      var remainder :- Sub(amount, tax);
      var _ :- AssertBonds(s.supply, bonded);
      var (supply, unbond) :- Redeem(s.supply, bonded, remainder);
      var claims :- Credit(s.claims, sender, unbond);
      Ok(Response(State(balances, claims, supply), [Undelegate(unbond)]))
  }

  function Min(a: nat, b: nat): nat {
    if a < b then a else b
  }

  function HandleClaim(cfg: Config, s: State, env: Env, q: Querier): Outcome<Response> {
    if q.balance < cfg.invest.minWithdrawal then Err(GenericErr("Insufficient balance in contract to process claim"))
    else
      var sender :- cfg.canonical(env.sender);
      if sender !in s.claims then Err(GenericErr("no claim for this address"))
      else
        var toSend := Min(q.balance, s.claims[sender]);
        var left :- Sub(s.claims[sender], toSend);
        var total :- Sub(s.supply.claims, toSend);
        Ok(Response(s.(claims := s.claims[sender := left], supply := s.supply.(claims := total)),
                    [Send(env.sender, toSend)]))
  }

  function HandleReinvest(s: State): Outcome<Response> {
    Ok(Response(s, [Withdraw, ExecuteBondAllTokens]))
  }

  /** The self-callback; too small a surplus over the claims is a no-op, not an error. */
  function HandleBondAllTokens(cfg: Config, s: State, env: Env, q: Querier): (r: Outcome<Response>)
    ensures r.Ok? && r.value.messages != [] ==> exists amount :: r.value.messages == [Delegate(amount)]
  {
    if env.sender != cfg.contract then Err(Unauthorized)
    else if q.balance < s.supply.claims + cfg.invest.minWithdrawal then Ok(Response(s, []))
    else
      var surplus := q.balance - s.supply.claims;
      var bonded :- Add(s.supply.bonded, surplus);
      Ok(Response(s.(supply := s.supply.(bonded := bonded)), [Delegate(surplus)]))
  }

  function Handle(cfg: Config, s: State, env: Env, q: Querier, msg: HandleMsg): Outcome<Response> {
    match msg
    case Transfer(recipient, amount) => HandleTransfer(cfg, s, env, recipient, amount)
    case Bond => HandleBond(cfg, s, env, q)
    case Unbond(amount) => HandleUnbond(cfg, s, env, q, amount)
    case Claim => HandleClaim(cfg, s, env, q)
    case Reinvest => HandleReinvest(s)
    case BondAllTokens => HandleBondAllTokens(cfg, s, env, q)
  }
}
