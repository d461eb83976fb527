/** The ERC20 token as an abstract ledger of naturals, and what every sequence of calls keeps. */
module Erc20Ledger {
  import opened Outcomes
  import opened Sums
  import opened Uint128
  import opened Bytes

  /** Canonical addresses; the VM hands out at most 32 bytes. */
  type Addr = a: Bytes | |a| <= 32

  datatype Ledger = Ledger(balances: map<Addr, nat>, allowances: map<(Addr, Addr), nat>, supply: nat)

  datatype Call =
    | Approve(owner: Addr, spender: Addr, amount: U128)
    | Transfer(from: Addr, to: Addr, amount: U128)
    | TransferFrom(spender: Addr, owner: Addr, recipient: Addr, amount: U128)
    | Burn(account: Addr, amount: U128)

  /** A ledger after a call, also when the call fails half way, and what the call reports. */
  datatype Applied = Applied(ledger: Ledger, outcome: Outcome<()>)

  const NO_FUNDS := GenericErr("Insufficient funds")
  const NO_ALLOWANCE := GenericErr("Insufficient allowance")

  function Move(l: Ledger, from: Addr, to: Addr, amount: nat): Applied {
    if Get(l.balances, from) < amount then Applied(l, Err(NO_FUNDS))
    else
      var debited := l.balances[from := Get(l.balances, from) - amount];
      if Get(debited, to) + amount >= TWO_128 then Applied(l.(balances := debited), Panic)
      else Applied(l.(balances := debited[to := Get(debited, to) + amount]), Ok(()))
  }

  function Apply(l: Ledger, c: Call): Applied {
    match c
    case Approve(owner, spender, amount) =>
      Applied(l.(allowances := l.allowances[(owner, spender) := amount]), Ok(()))
    case Transfer(from, to, amount) => Move(l, from, to, amount)
    case TransferFrom(spender, owner, recipient, amount) =>
      var allowance := Get(l.allowances, (owner, spender));
      if allowance < amount then Applied(l, Err(NO_ALLOWANCE))
      else Move(l.(allowances := l.allowances[(owner, spender) := allowance - amount]), owner, recipient, amount)
    case Burn(account, amount) =>
      if Get(l.balances, account) < amount then Applied(l, Err(NO_FUNDS))
      else
        var burnt := l.(balances := l.balances[account := Get(l.balances, account) - amount]);
        if l.supply < amount then Applied(burnt, Panic) else Applied(burnt.(supply := l.supply - amount), Ok(()))
  }

  /** One call as the host sees it: with `rollback`, a failing call leaves no trace. */
  function Step(l: Ledger, c: Call, rollback: bool): Ledger {
    var after := Apply(l, c);
    if rollback && !after.outcome.Ok? then l else after.ledger
  }

  function Run(l: Ledger, calls: seq<Call>, rollback: bool): Ledger
    decreases |calls|
  {
    if calls == [] then l else Run(Step(l, calls[0], rollback), calls[1..], rollback)
  }

  // ----- the initial ledger -----

  datatype Row = Row(address: Addr, amount: U128)

  function Fill(balances: map<Addr, nat>, rows: seq<Row>): map<Addr, nat>
    decreases |rows|
  {
    if rows == [] then balances else Fill(balances[rows[0].address := rows[0].amount], rows[1..])
  }

  function Total(rows: seq<Row>): nat {
    if rows == [] then 0 else rows[0].amount + Total(rows[1..])
  }

  function Initial(rows: seq<Row>): Ledger {
    Ledger(Fill(map[], rows), map[], Total(rows))
  }

  /** Amounts that a later row for the same address replaces while filling in the rows. */
  function Replaced(balances: map<Addr, nat>, rows: seq<Row>): nat
    decreases |rows|
  {
    if rows == [] then 0
    else Get(balances, rows[0].address) + Replaced(balances[rows[0].address := rows[0].amount], rows[1..])
  }

  lemma {:induction false} FillTotal(balances: map<Addr, nat>, rows: seq<Row>)
    ensures Sum(Fill(balances, rows)) + Replaced(balances, rows) == Sum(balances) + Total(rows)
    decreases |rows|
  {
    if rows != [] {
      SumUpdate(balances, rows[0].address, rows[0].amount);
      FillTotal(balances[rows[0].address := rows[0].amount], rows[1..]);
    }
  }

  lemma {:induction false} ReplacedZero(balances: map<Addr, nat>, rows: seq<Row>)
    ensures Replaced(balances, rows) == 0 <==>
            && (forall i :: 0 <= i < |rows| ==> Get(balances, rows[i].address) == 0)
            && (forall i, j :: 0 <= i < j < |rows| && rows[i].address == rows[j].address ==> rows[i].amount == 0)
    decreases |rows|
  {
    if rows != [] {
      var first, rest := rows[0], rows[1..];
      var filled := balances[first.address := first.amount];
      ReplacedZero(filled, rest);
      assert forall i :: 0 < i < |rows| ==> rows[i] == rest[i - 1];
      if Replaced(balances, rows) == 0 {
        forall i | 0 < i < |rows| ensures Get(balances, rows[i].address) == 0 {
          assert Get(filled, rest[i - 1].address) == 0;
        }
        forall i, j | 0 <= i < j < |rows| && rows[i].address == rows[j].address ensures rows[i].amount == 0 {
          assert Get(filled, rest[j - 1].address) == 0;
          if i > 0 {
            assert rest[i - 1].address == rest[j - 1].address;
          }
        }
      } else if Get(balances, first.address) == 0 {
        if i :| 0 <= i < |rest| && Get(filled, rest[i].address) != 0 {
          assert rows[i + 1].address == rest[i].address;
        } else {
          var i, j :| 0 <= i < j < |rest| && rest[i].address == rest[j].address && rest[i].amount != 0;
          assert rows[i + 1] == rest[i] && rows[j + 1] == rest[j];
        }
      }
    }
  }

  // ----- conservation -----

  /** The recorded supply covers the balances and fits in 128 bits. */
  ghost predicate Backed(l: Ledger) {
    Sum(l.balances) <= l.supply < TWO_128
  }

  lemma MoveKeeps(l: Ledger, from: Addr, to: Addr, amount: nat)
    requires Backed(l)
    ensures var after := Move(l, from, to, amount);
            && (after.outcome.Ok? <==> amount <= Get(l.balances, from))
            && !after.outcome.Panic?
            && Sum(after.ledger.balances) == Sum(l.balances)
  {
    if amount <= Get(l.balances, from) {
      var debited := l.balances[from := Get(l.balances, from) - amount];
      SumUpdate(l.balances, from, Get(l.balances, from) - amount);
      SumCoversEntry(debited, to);
      SumCoversEntry(l.balances, from);
      SumUpdate(debited, to, Get(debited, to) + amount);
    }
  }

  /** No call overflows a balance, underflows the supply, or changes the gap between supply and balances,
      whether it succeeds or fails half way. */
  lemma ApplyKeeps(l: Ledger, c: Call)
    requires Backed(l)
    ensures var after := Apply(l, c);
            && !after.outcome.Panic?
            && Backed(after.ledger)
            && after.ledger.supply - Sum(after.ledger.balances) == l.supply - Sum(l.balances)
  {
    match c
    case Approve(_, _, _) =>
    case Transfer(from, to, amount) => MoveKeeps(l, from, to, amount);
    case TransferFrom(spender, owner, recipient, amount) =>
      var allowance := Get(l.allowances, (owner, spender));
      if amount <= allowance {
        MoveKeeps(l.(allowances := l.allowances[(owner, spender) := allowance - amount]), owner, recipient, amount);
      }
    case Burn(account, amount) =>
      if amount <= Get(l.balances, account) {
        SumCoversEntry(l.balances, account);
        SumUpdate(l.balances, account, Get(l.balances, account) - amount);
      }
  }

  lemma {:induction false} RunKeeps(l: Ledger, calls: seq<Call>, rollback: bool)
    requires Backed(l)
    ensures var after := Run(l, calls, rollback);
            Backed(after) && after.supply - Sum(after.balances) == l.supply - Sum(l.balances)
    decreases |calls|
  {
    if calls != [] {
      ApplyKeeps(l, calls[0]);
      RunKeeps(Step(l, calls[0], rollback), calls[1..], rollback);
    }
  }

  /** Over every run the supply exceeds the balances by what duplicate initial rows lost, which is nothing
      exactly when no non-zero initial amount was replaced. */
  lemma Conservation(rows: seq<Row>, calls: seq<Call>, rollback: bool)
    requires Total(rows) < TWO_128
    ensures var after := Run(Initial(rows), calls, rollback);
            && Backed(after)
            && after.supply == Sum(after.balances) + Replaced(map[], rows)
            && (after.supply == Sum(after.balances) <==>
                  forall i, j :: 0 <= i < j < |rows| && rows[i].address == rows[j].address ==> rows[i].amount == 0)
  {
    FillTotal(map[], rows);
    ReplacedZero(map[], rows);
    RunKeeps(Initial(rows), calls, rollback);
  }

  // ----- who gains and who loses -----

  /** Who a call debits and credits, and by how much. */
  function Debited(c: Call, a: Addr): nat {
    match c
    case Approve(_, _, _) => 0
    case Transfer(from, _, amount) => If(a == from, amount)
    case TransferFrom(_, owner, _, amount) => If(a == owner, amount)
    case Burn(account, amount) => If(a == account, amount)
  }

  function Credited(c: Call, a: Addr): nat {
    match c
    case Approve(_, _, _) => 0
    case Transfer(_, to, amount) => If(a == to, amount)
    case TransferFrom(_, _, recipient, amount) => If(a == recipient, amount)
    case Burn(_, _) => 0
  }

  /** A call succeeds exactly when the debited account and the allowance cover it. */
  lemma CallSucceeds(l: Ledger, c: Call)
    requires Backed(l)
    ensures Apply(l, c).outcome.Ok? <==>
            && (forall d :: Debited(c, d) <= Get(l.balances, d))
            && (c.TransferFrom? ==> c.amount <= Get(l.allowances, (c.owner, c.spender)))
  {
    match c
    case Approve(_, _, _) =>
    case Transfer(from, to, amount) =>
      MoveKeeps(l, from, to, amount);
      assert Debited(c, from) == amount;
    case TransferFrom(spender, owner, recipient, amount) =>
      assert Debited(c, owner) == amount;
      var allowance := Get(l.allowances, (owner, spender));
      if amount <= allowance {
        MoveKeeps(l.(allowances := l.allowances[(owner, spender) := allowance - amount]), owner, recipient, amount);
      }
    case Burn(account, amount) =>
      assert Debited(c, account) == amount;
      SumCoversEntry(l.balances, account);
  }

  lemma MoveMoves(l: Ledger, from: Addr, to: Addr, amount: nat, a: Addr)
    requires Backed(l)
    ensures var after := Move(l, from, to, amount);
            && after.ledger == l.(balances := after.ledger.balances)
            && (if after.outcome.Ok?
                then Get(after.ledger.balances, a) + If(a == from, amount) == Get(l.balances, a) + If(a == to, amount)
                else after.ledger.balances == l.balances)
  {
    MoveKeeps(l, from, to, amount);
  }

  /** A call that succeeds moves the amount and nothing else; otherwise every balance stays as it was. */
  lemma CallMoves(l: Ledger, c: Call, a: Addr)
    requires Backed(l)
    ensures Apply(l, c).outcome.Ok? ==>
              Get(Apply(l, c).ledger.balances, a) + Debited(c, a) == Get(l.balances, a) + Credited(c, a)
    ensures !Apply(l, c).outcome.Ok? ==> Apply(l, c).ledger.balances == l.balances
    ensures Apply(l, c).ledger.supply + If(c.Burn? && Apply(l, c).outcome.Ok?, c.amount) == l.supply
  {
    match c
    case Approve(_, _, _) =>
    case Transfer(from, to, amount) => MoveMoves(l, from, to, amount, a);
    case TransferFrom(spender, owner, recipient, amount) =>
      var allowance := Get(l.allowances, (owner, spender));
      if amount <= allowance {
        MoveMoves(l.(allowances := l.allowances[(owner, spender) := allowance - amount]), owner, recipient, amount, a);
      }
    case Burn(account, amount) => SumCoversEntry(l.balances, account);
  }

  // ----- allowance accounting -----

  /** For one owner and spender: the amount last approved, and what the spender has moved since. */
  datatype Meter = Meter(approved: nat, moved: nat)

  function Metered(m: Meter, l: Ledger, c: Call, owner: Addr, spender: Addr): Meter {
    match c
    case Approve(o, s, amount) => if o == owner && s == spender then Meter(amount, 0) else m
    case TransferFrom(s, o, _, amount) =>
      if o == owner && s == spender && Apply(l, c).outcome.Ok? then m.(moved := m.moved + amount) else m
    case _ => m
  }

  function RunMeter(m: Meter, l: Ledger, calls: seq<Call>, rollback: bool, owner: Addr, spender: Addr): Meter
    decreases |calls|
  {
    if calls == [] then m
    else RunMeter(Metered(m, l, calls[0], owner, spender), Step(l, calls[0], rollback), calls[1..], rollback,
                  owner, spender)
  }

  /** Moved plus remaining equals approved when failures are rolled back; otherwise it can only be less. */
  ghost predicate Accounted(m: Meter, l: Ledger, rollback: bool, owner: Addr, spender: Addr) {
    var total := m.moved + Get(l.allowances, (owner, spender));
    if rollback then total == m.approved else total <= m.approved
  }

  lemma {:induction false} AllowanceRun(m: Meter, l: Ledger, calls: seq<Call>, rollback: bool,
                                        owner: Addr, spender: Addr)
    requires Accounted(m, l, rollback, owner, spender)
    ensures Accounted(RunMeter(m, l, calls, rollback, owner, spender), Run(l, calls, rollback), rollback, owner, spender)
    decreases |calls|
  {
    if calls != [] {
      var c := calls[0];
      var next := Step(l, c, rollback);
      assert Accounted(Metered(m, l, c, owner, spender), next, rollback, owner, spender);
      AllowanceRun(Metered(m, l, c, owner, spender), next, calls[1..], rollback, owner, spender);
    }
  }

  /** Nobody spends more than was approved, over any run from initialisation. */
  lemma AllowanceAccounting(rows: seq<Row>, calls: seq<Call>, rollback: bool, owner: Addr, spender: Addr)
    ensures var m := RunMeter(Meter(0, 0), Initial(rows), calls, rollback, owner, spender);
            var left := Get(Run(Initial(rows), calls, rollback).allowances, (owner, spender));
            && m.moved + left <= m.approved
            && (rollback ==> m.moved + left == m.approved)
  {
    AllowanceRun(Meter(0, 0), Initial(rows), calls, rollback, owner, spender);
  }

  /** Row `i` is the last one for its address. */
  ghost predicate LastFor(rows: seq<Row>, i: nat) {
    i < |rows| && forall j :: i < j < |rows| ==> rows[j].address != rows[i].address
  }

  /** Initially an account holds what the last row for it says, and what it had before without a row. */
  lemma {:induction false} FillExact(balances: map<Addr, nat>, rows: seq<Row>, a: Addr)
    ensures forall i :: 0 <= i < |rows| && LastFor(rows, i) && rows[i].address == a ==>
              Get(Fill(balances, rows), a) == rows[i].amount
    ensures (forall i :: 0 <= i < |rows| ==> rows[i].address != a) ==> Get(Fill(balances, rows), a) == Get(balances, a)
    decreases |rows|
  {
    if rows != [] {
      var filled, rest := balances[rows[0].address := rows[0].amount], rows[1..];
      FillExact(filled, rest, a);
      forall i | 0 <= i < |rows| && LastFor(rows, i) && rows[i].address == a
        ensures Get(Fill(balances, rows), a) == rows[i].amount
      {
        if i == 0 {
          assert forall k :: 0 <= k < |rest| ==> rest[k] == rows[k + 1];
        } else {
          assert rest[i - 1] == rows[i];
          assert forall k :: 0 <= k < |rest| ==> rest[k] == rows[k + 1];
          assert LastFor(rest, i - 1);
        }
      }
      assert forall k :: 0 <= k < |rest| ==> rest[k] == rows[k + 1];
    }
  }

  /** What a move that succeeds does to every balance. */
  lemma MoveOk(l: Ledger, from: Addr, to: Addr, amount: nat)
    requires Move(l, from, to, amount).outcome.Ok?
    ensures amount <= Get(l.balances, from)
    ensures var after := Move(l, from, to, amount).ledger;
            && after == l.(balances := after.balances)
            && forall a: Addr :: Get(after.balances, a) + If(a == from, amount) == Get(l.balances, a) + If(a == to, amount)
  {
  }

  /** When a call succeeds, kind by kind. */
  lemma CallCovered(l: Ledger, c: Call)
    requires Backed(l)
    ensures Apply(l, c).outcome.Ok? <==>
            match c
            case Approve(_, _, _) => true
            case Transfer(from, _, amount) => amount <= Get(l.balances, from)
            case TransferFrom(spender, owner, _, amount) =>
              amount <= Get(l.allowances, (owner, spender)) && amount <= Get(l.balances, owner)
            case Burn(account, amount) => amount <= Get(l.balances, account)
  {
    CallSucceeds(l, c);
    match c
    case Approve(_, _, _) =>
    case Transfer(from, _, amount) => assert Debited(c, from) == amount;
    case TransferFrom(_, owner, _, amount) => assert Debited(c, owner) == amount;
    case Burn(account, amount) => assert Debited(c, account) == amount;
  }
}
