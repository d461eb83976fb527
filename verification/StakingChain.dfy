/** The staking contract on a chain without slashing: transactions run a handler and dispatch its
    messages atomically, unbonded tokens mature, rewards and gifts arrive. */
module StakingChain {
  import opened Outcomes
  import opened Staking

  /** Contract storage plus what the chain holds for the contract, in the bond denomination. */
  datatype World = World(state: State, liquid: nat, delegated: nat, unbonding: seq<nat>)

  datatype Event =
    /** A signed transaction. `withdrawn` is the reward paid out should it withdraw rewards; `refused`
        says that the chain turns one of the emitted messages down. */
    | Transaction(sender: HumanAddr, funds: seq<Coin>, msg: HandleMsg, withdrawn: nat, refused: bool)
    | TokensArrive(amount: nat)
    | UnbondingMatures(entry: nat)

  const GENESIS: World := World(INITIAL, 0, 0, [])

  function Query(cfg: Config, w: World): Querier {
    Querier(if w.delegated == 0 then [] else [Coin(cfg.invest.bondDenom, w.delegated)], w.liquid)
  }

  /** The coins of `funds` in one denomination. */
  function Paid(funds: seq<Coin>, denom: string): nat {
    if funds == [] then 0
    else (if funds[0].denom == denom then funds[0].amount else 0) + Paid(funds[1..], denom)
  }

  /** A bank or staking message; the chain refuses to move tokens that are not there, and lets an amount of
      zero pass. */
  function Perform(cfg: Config, w: World, m: Message, withdrawn: nat): Outcome<World>
    requires m != ExecuteBondAllTokens
  {
    match m
    case Delegate(amount) =>
      if w.liquid < amount then Err(GenericErr("insufficient funds"))
      else Ok(w.(liquid := w.liquid - amount, delegated := w.delegated + amount))
    case Undelegate(amount) =>
      if w.delegated < amount then Err(GenericErr("insufficient delegation"))
      else Ok(w.(delegated := w.delegated - amount, unbonding := w.unbonding + [amount]))
    case Send(to, amount) =>
      if w.liquid < amount then Err(GenericErr("insufficient funds"))
      else if to == cfg.contract then Ok(w)
      else Ok(w.(liquid := w.liquid - amount))
    case Withdraw => Ok(w.(liquid := w.liquid + withdrawn))
  }

  ghost function Callbacks(ms: seq<Message>): nat {
    if ms == [] then 0 else (if ms[0].ExecuteBondAllTokens? then 1 else 0) + Callbacks(ms[1..])
  }

  /** Dispatches messages in order; a callback runs its handler and then that handler's messages. */
  function Dispatch(cfg: Config, w: World, ms: seq<Message>, withdrawn: nat): Outcome<World>
    decreases Callbacks(ms), |ms|
  {
    if ms == [] then Ok(w)
    else if ms[0].ExecuteBondAllTokens? then
      var called :- HandleBondAllTokens(cfg, w.state, Env(cfg.contract, []), Query(cfg, w));
      assert Callbacks(called.messages) == 0 by {
        assert called.messages != [] ==> called.messages[1..] == [];
      }
      var w1 :- Dispatch(cfg, w.(state := called.state), called.messages, withdrawn);
      Dispatch(cfg, w1, ms[1..], withdrawn)
    else
      var w1 :- Perform(cfg, w, ms[0], withdrawn);
      Dispatch(cfg, w1, ms[1..], withdrawn)
  }

  /** Stores what a handler wrote and dispatches its messages, unless it failed. */
  function Settle(cfg: Config, w: World, handled: Outcome<Response>, withdrawn: nat): Outcome<World> {
    var response :- handled;
    Dispatch(cfg, w.(state := response.state), response.messages, withdrawn)
  }

  /** Credits the sent funds, runs the handler, dispatches its messages. */
  function Execute(cfg: Config, w: World, sender: HumanAddr, funds: seq<Coin>, msg: HandleMsg, withdrawn: nat):
    Outcome<World>
  {
    var funded := w.(liquid := w.liquid + Paid(funds, cfg.invest.bondDenom));
    Settle(cfg, funded, Handle(cfg, w.state, Env(sender, funds), Query(cfg, funded), msg), withdrawn)
  }

  /** One event. A failing or refused transaction, and one signed by the contract itself, changes nothing. */
  function Step(cfg: Config, w: World, e: Event): World {
    match e
    case Transaction(sender, funds, msg, withdrawn, refused) =>
      var done := Execute(cfg, w, sender, funds, msg, withdrawn);
      if done.Ok? && !refused && sender != cfg.contract then done.value else w
    case TokensArrive(amount) => w.(liquid := w.liquid + amount)
    case UnbondingMatures(entry) =>
      if entry < |w.unbonding| then
        w.(liquid := w.liquid + w.unbonding[entry],
           unbonding := w.unbonding[..entry] + w.unbonding[entry + 1..])
      else w
  }

  function Run(cfg: Config, w: World, es: seq<Event>): World
    decreases |es|
  {
    if es == [] then w else Run(cfg, Step(cfg, w, es[0]), es[1..])
  }
}
