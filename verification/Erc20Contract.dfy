/** The ERC20 contract on its flat byte store, proved to run the abstract ledger. */
module Erc20Contract {
  import opened Outcomes
  import opened Sums
  import opened Uint128
  import opened Bytes
  import opened Erc20Ledger

  type HumanAddr = string
  type Store = map<Bytes, Bytes>

  // ASCII of "config", "balances", "allowances", "constants" and "total_supply"
  const PREFIX_CONFIG: Bytes := [99, 111, 110, 102, 105, 103]
  const PREFIX_BALANCES: Bytes := [98, 97, 108, 97, 110, 99, 101, 115]
  const PREFIX_ALLOWANCES: Bytes := [97, 108, 108, 111, 119, 97, 110, 99, 101, 115]
  const KEY_CONSTANTS: Bytes := [99, 111, 110, 115, 116, 97, 110, 116, 115]
  const KEY_TOTAL_SUPPLY: Bytes := [116, 111, 116, 97, 108, 95, 115, 117, 112, 112, 108, 121]

  function BalanceKey(a: Addr): Bytes {
    ToLengthPrefixed(PREFIX_BALANCES) + a
  }

  /** The owner is a namespace nested inside the allowances. */
  function AllowanceKey(owner: Addr, spender: Addr): Bytes {
    ToLengthPrefixed(PREFIX_ALLOWANCES) + (ToLengthPrefixed(owner) + spender)
  }

  function ConfigKey(key: Bytes): Bytes {
    ToLengthPrefixed(PREFIX_CONFIG) + key
  }

  /** Keys of different records never coincide. */
  lemma KeysDistinct()
    ensures forall a: Addr, b: Addr :: BalanceKey(a) == BalanceKey(b) ==> a == b
    ensures forall o: Addr, s: Addr, o': Addr, s': Addr :: AllowanceKey(o, s) == AllowanceKey(o', s') ==> o == o' && s == s'
    ensures forall a: Addr, o: Addr, s: Addr :: BalanceKey(a) != AllowanceKey(o, s)
    ensures forall a: Addr, k: Bytes :: BalanceKey(a) != ConfigKey(k)
    ensures forall o: Addr, s: Addr, k: Bytes :: AllowanceKey(o, s) != ConfigKey(k)
    ensures forall k: Bytes, k': Bytes :: ConfigKey(k) == ConfigKey(k') ==> k == k'
  {
    forall a: Addr, b: Addr | BalanceKey(a) == BalanceKey(b) ensures a == b {
      PrefixDecodes(PREFIX_BALANCES, a, PREFIX_BALANCES, b);
    }
    forall o: Addr, s: Addr, o': Addr, s': Addr | AllowanceKey(o, s) == AllowanceKey(o', s') ensures o == o' && s == s' {
      PrefixDecodes(PREFIX_ALLOWANCES, ToLengthPrefixed(o) + s, PREFIX_ALLOWANCES, ToLengthPrefixed(o') + s');
      PrefixDecodes(o, s, o', s');
    }
    forall a: Addr, o: Addr, s: Addr ensures BalanceKey(a) != AllowanceKey(o, s) {
      if BalanceKey(a) == AllowanceKey(o, s) {
        PrefixDecodes(PREFIX_BALANCES, a, PREFIX_ALLOWANCES, ToLengthPrefixed(o) + s);
      }
    }
    forall a: Addr, k: Bytes ensures BalanceKey(a) != ConfigKey(k) {
      if BalanceKey(a) == ConfigKey(k) {
        PrefixDecodes(PREFIX_BALANCES, a, PREFIX_CONFIG, k);
      }
    }
    forall o: Addr, s: Addr, k: Bytes ensures AllowanceKey(o, s) != ConfigKey(k) {
      if AllowanceKey(o, s) == ConfigKey(k) {
        PrefixDecodes(PREFIX_ALLOWANCES, ToLengthPrefixed(o) + s, PREFIX_CONFIG, k);
      }
    }
    forall k: Bytes, k': Bytes | ConfigKey(k) == ConfigKey(k') ensures k == k' {
      PrefixDecodes(PREFIX_CONFIG, k, PREFIX_CONFIG, k');
    }
  }

  /** Reads the first 16 bytes; shorter data panics and longer data is cut, so the error its comment
      announces is never returned. */
  function BytesToU128(data: Bytes): Outcome<nat> {
    if |data| < 16 then Panic else Ok(FromBigEndian(data[0..16]))
  }

  function ReadU128(store: Store, key: Bytes): Outcome<nat> {
    if key in store then BytesToU128(store[key]) else Ok(0)
  }

  function ToBytes(n: U128): (b: Bytes)
    ensures |b| == 16
  {
    ToBigEndian(n, 16)
  }

  /** Sixteen bytes that read as `v`. */
  ghost predicate Encodes(data: Bytes, v: nat) {
    |data| == 16 && v < TWO_128 && FromBigEndian(data) == v
  }

  /** Reading inverts writing, for every 128-bit amount. */
  lemma ReadInvertsWrite(n: U128)
    ensures Encodes(ToBytes(n), n) && BytesToU128(ToBytes(n)) == Ok(n)
  {
    assert Pow256(4) == 0x1_0000_0000;
    assert Pow256(8) == 0x1_0000_0000 * Pow256(4);
    assert Pow256(12) == 0x1_0000_0000 * Pow256(8);
    assert Pow256(16) == 0x1_0000_0000 * Pow256(12) == TWO_128;
    BigEndianRoundTrip(n, 16);
    assert ToBytes(n)[0..16] == ToBytes(n);
  }

  /** Amounts are stored in 16 bytes, the most significant first. */
  lemma ToBytesAt(n: U128, i: nat)
    requires i < 16
    ensures |ToBytes(n)| == 16 && Pow256(15 - i) > 0 && ToBytes(n)[i] == n / Pow256(15 - i) % 256
  {
    BigEndianAt(n, 16, i);
  }

  /** Shorter data is a panic, and of longer data only the first 16 bytes are read. */
  lemma ReadLengths(data: Bytes)
    ensures |data| < 16 ==> BytesToU128(data) == Panic
    ensures |data| >= 16 ==> BytesToU128(data) == Ok(FromBigEndian(data[..16]))
  {
    assert |data| >= 16 ==> data[0..16] == data[..16];
  }

  /** The stored balance of `a`, or its absence, is the one in `l`. */
  ghost predicate HoldsBalance(store: Store, l: Ledger, a: Addr) {
    && (a in l.balances <==> BalanceKey(a) in store)
    && (a in l.balances ==> Encodes(store[BalanceKey(a)], l.balances[a]))
  }

  ghost predicate HoldsAllowance(store: Store, l: Ledger, owner: Addr, spender: Addr) {
    && ((owner, spender) in l.allowances <==> AllowanceKey(owner, spender) in store)
    && ((owner, spender) in l.allowances ==>
          Encodes(store[AllowanceKey(owner, spender)], l.allowances[(owner, spender)]))
  }

  ghost predicate Entries(store: Store, l: Ledger) {
    && (forall a: Addr :: HoldsBalance(store, l, a))
    && (forall o: Addr, s: Addr :: HoldsAllowance(store, l, o, s))
  }

  ghost predicate HoldsSupply(store: Store, supply: nat) {
    ConfigKey(KEY_TOTAL_SUPPLY) in store && Encodes(store[ConfigKey(KEY_TOTAL_SUPPLY)], supply)
  }

  ghost predicate Represents(store: Store, l: Ledger) {
    Entries(store, l) && HoldsSupply(store, l.supply)
  }

  /** A store represents at most one ledger. */
  lemma RepresentsOne(store: Store, l: Ledger, l': Ledger)
    requires Represents(store, l) && Represents(store, l')
    ensures l == l'
  {
    forall a: Addr
      ensures a in l.balances <==> a in l'.balances
      ensures a in l.balances ==> l.balances[a] == l'.balances[a]
    {
      assert HoldsBalance(store, l, a) && HoldsBalance(store, l', a);
    }
    forall p: (Addr, Addr)
      ensures p in l.allowances <==> p in l'.allowances
      ensures p in l.allowances ==> l.allowances[p] == l'.allowances[p]
    {
      assert p == (p.0, p.1);
      assert HoldsAllowance(store, l, p.0, p.1) && HoldsAllowance(store, l', p.0, p.1);
    }
    assert l.balances == l'.balances && l.allowances == l'.allowances;
  }

  // ----- reads and writes, one record at a time -----

  lemma ReadEncoded(data: Bytes, v: nat)
    requires Encodes(data, v)
    ensures BytesToU128(data) == Ok(v)
  {
    assert data[0..16] == data;
  }

  lemma ReadBalance(store: Store, l: Ledger, a: Addr)
    requires Entries(store, l)
    ensures ReadU128(store, BalanceKey(a)) == Ok(Get(l.balances, a)) && Get(l.balances, a) < TWO_128
  {
    assert HoldsBalance(store, l, a);
    if a in l.balances {
      ReadEncoded(store[BalanceKey(a)], l.balances[a]);
    }
  }

  lemma ReadAllowance(store: Store, l: Ledger, owner: Addr, spender: Addr)
    requires Entries(store, l)
    ensures ReadU128(store, AllowanceKey(owner, spender)) == Ok(Get(l.allowances, (owner, spender)))
    ensures Get(l.allowances, (owner, spender)) < TWO_128
  {
    assert HoldsAllowance(store, l, owner, spender);
    if (owner, spender) in l.allowances {
      ReadEncoded(store[AllowanceKey(owner, spender)], l.allowances[(owner, spender)]);
    }
  }

  lemma WriteBalance(store: Store, l: Ledger, a: Addr, v: U128)
    requires Entries(store, l)
    ensures Entries(store[BalanceKey(a) := ToBytes(v)], l.(balances := l.balances[a := v]))
    ensures HoldsSupply(store, l.supply) ==> HoldsSupply(store[BalanceKey(a) := ToBytes(v)], l.supply)
  {
    KeysDistinct();
    ReadInvertsWrite(v);
    var store', l' := store[BalanceKey(a) := ToBytes(v)], l.(balances := l.balances[a := v]);
    forall b: Addr ensures HoldsBalance(store', l', b) {
      assert HoldsBalance(store, l, b);
    }
    forall o: Addr, s: Addr ensures HoldsAllowance(store', l', o, s) {
      assert HoldsAllowance(store, l, o, s);
    }
  }

  lemma WriteAllowance(store: Store, l: Ledger, owner: Addr, spender: Addr, v: U128)
    requires Represents(store, l)
    ensures Represents(store[AllowanceKey(owner, spender) := ToBytes(v)],
                       l.(allowances := l.allowances[(owner, spender) := v]))
  {
    KeysDistinct();
    ReadInvertsWrite(v);
    var store' := store[AllowanceKey(owner, spender) := ToBytes(v)];
    var l' := l.(allowances := l.allowances[(owner, spender) := v]);
    forall b: Addr ensures HoldsBalance(store', l', b) {
      assert HoldsBalance(store, l, b);
    }
    forall o: Addr, s: Addr ensures HoldsAllowance(store', l', o, s) {
      assert HoldsAllowance(store, l, o, s);
    }
  }

  /** Writing under a configuration key touches no balance and no allowance. */
  lemma WriteConfig(store: Store, l: Ledger, key: Bytes, data: Bytes, l': Ledger)
    requires Entries(store, l) && l'.balances == l.balances && l'.allowances == l.allowances
    ensures Entries(store[ConfigKey(key) := data], l')
  {
    KeysDistinct();
    var store' := store[ConfigKey(key) := data];
    forall a: Addr ensures HoldsBalance(store', l', a) {
      assert HoldsBalance(store, l, a);
    }
    forall o: Addr, s: Addr ensures HoldsAllowance(store', l', o, s) {
      assert HoldsAllowance(store, l, o, s);
    }
  }

  // ----- the contract -----

  datatype InitialBalance = InitialBalance(address: HumanAddr, amount: U128)

  /** The rows with canonical addresses, unless one does not convert. */
  function Canonical(canonical: HumanAddr -> Outcome<Addr>, rows: seq<InitialBalance>): Outcome<seq<Row>> {
    if rows == [] then Ok([])
    else
      var init :- Canonical(canonical, rows[..|rows| - 1]);
      var address :- canonical(rows[|rows| - 1].address);
      Ok(init + [Row(address, rows[|rows| - 1].amount)])
  }

  datatype HandleMsg =
    | MsgApprove(spender: HumanAddr, amount: U128)
    | MsgTransfer(recipient: HumanAddr, amount: U128)
    | MsgTransferFrom(owner: HumanAddr, recipient: HumanAddr, amount: U128)
    | MsgBurn(amount: U128)

  /** The ledger call a message asks for, unless an address in it does not convert. */
  function CallOf(canonical: HumanAddr -> Outcome<Addr>, sender: HumanAddr, msg: HandleMsg): Outcome<Call> {
    var caller :- canonical(sender);
    match msg
    case MsgApprove(spender, amount) =>
      var to :- canonical(spender);
      Ok(Approve(caller, to, amount))
    case MsgTransfer(recipient, amount) =>
      var to :- canonical(recipient);
      Ok(Transfer(caller, to, amount))
    case MsgTransferFrom(owner, recipient, amount) =>
      var from :- canonical(owner);
      var to :- canonical(recipient);
      Ok(TransferFrom(caller, from, to, amount))
    case MsgBurn(amount) => Ok(Burn(caller, amount))
  }

  predicate ValidSymbol(symbol: Bytes) {
    3 <= |symbol| <= 6 && forall i :: 0 <= i < |symbol| ==> 65 <= symbol[i] <= 90
  }

  method IsValidSymbol(symbol: Bytes) returns (valid: bool)
    ensures valid <==> ValidSymbol(symbol)
    ensures valid <==> 3 <= |symbol| <= 6 && forall i :: 0 <= i < |symbol| ==> 'A' as int <= symbol[i] <= 'Z' as int
  {
    if |symbol| < 3 || |symbol| > 6 {
      return false;
    }
    for i := 0 to |symbol|
      invariant forall j :: 0 <= j < i ==> 65 <= symbol[j] <= 90
    {
      if symbol[i] < 65 || symbol[i] > 90 {
        return false;
      }
    }
    return true;
  }

  lemma {:induction false} FillAppend(balances: map<Addr, nat>, rows: seq<Row>, row: Row)
    ensures Fill(balances, rows + [row]) == Fill(balances, rows)[row.address := row.amount]
    ensures Total(rows + [row]) == Total(rows) + row.amount
    decreases |rows|
  {
    if rows == [] {
      assert [row][1..] == [];
    } else {
      FillAppend(balances[rows[0].address := rows[0].amount], rows[1..], row);
      assert (rows + [row])[1..] == rows[1..] + [row];
    }
  }

  datatype Signed = Signed(sender: HumanAddr, msg: HandleMsg)

  /** The ledger calls of a list of messages; one whose addresses do not convert is none. */
  function CallsOf(canonical: HumanAddr -> Outcome<Addr>, msgs: seq<Signed>): seq<Call> {
    if msgs == [] then []
    else
      var call := CallOf(canonical, msgs[0].sender, msgs[0].msg);
      (if call.Ok? then [call.value] else []) + CallsOf(canonical, msgs[1..])
  }

  lemma RunCalls(canonical: HumanAddr -> Outcome<Addr>, l: Ledger, msgs: seq<Signed>, rollback: bool)
    requires msgs != []
    ensures var call := CallOf(canonical, msgs[0].sender, msgs[0].msg);
            Run(l, CallsOf(canonical, msgs), rollback) ==
            Run(if call.Ok? then Step(l, call.value, rollback) else l, CallsOf(canonical, msgs[1..]), rollback)
  {
    var call, rest := CallOf(canonical, msgs[0].sender, msgs[0].msg), CallsOf(canonical, msgs[1..]);
    if call.Ok? {
      assert ([call.value] + rest)[1..] == rest;
    } else {
      assert [] + rest == rest;
    }
  }

  class Token {
    const canonical: HumanAddr -> Outcome<Addr>
    var store: Store
    /** The ledger the store represents. */
    ghost var ledger: Ledger

    ghost predicate Valid()
      reads this
    {
      Represents(store, ledger)
    }

    constructor (canonical: HumanAddr -> Outcome<Addr>)
      ensures this.canonical == canonical && store == map[] && ledger == Ledger(map[], map[], 0)
    {
      this.canonical := canonical;
      store := map[];
      ledger := Ledger(map[], map[], 0);
    }

    method ReadBalanceOf(owner: Addr) returns (v: U128)
      requires Valid()
      ensures v == Get(ledger.balances, owner)
    {
      ReadBalance(store, ledger, owner);
      v := ReadU128(store, BalanceKey(owner)).value;
    }

    method ReadAllowanceOf(owner: Addr, spender: Addr) returns (v: U128)
      requires Valid()
      ensures v == Get(ledger.allowances, (owner, spender))
    {
      ReadAllowance(store, ledger, owner, spender);
      v := ReadU128(store, AllowanceKey(owner, spender)).value;
    }

    /** Also used before the supply is first written. */
    method SetBalance(owner: Addr, v: U128)
      requires Entries(store, ledger)
      modifies this
      ensures Entries(store, ledger) && (old(Valid()) ==> Valid())
      ensures ledger == old(ledger).(balances := old(ledger).balances[owner := v])
    {
      WriteBalance(store, ledger, owner, v);
      store := store[BalanceKey(owner) := ToBytes(v)];
      ledger := ledger.(balances := ledger.balances[owner := v]);
    }

    method WriteAllowanceOf(owner: Addr, spender: Addr, v: U128)
      requires Valid()
      modifies this
      ensures Valid()
      ensures ledger == old(ledger).(allowances := old(ledger).allowances[(owner, spender) := v])
    {
      WriteAllowance(store, ledger, owner, spender, v);
      store := store[AllowanceKey(owner, spender) := ToBytes(v)];
      ledger := ledger.(allowances := ledger.allowances[(owner, spender) := v]);
    }

    method SetSupply(v: U128)
      requires Entries(store, ledger)
      modifies this
      ensures Valid() && ledger == old(ledger).(supply := v)
    {
      WriteConfig(store, ledger, KEY_TOTAL_SUPPLY, ToBytes(v), ledger.(supply := v));
      ReadInvertsWrite(v);
      store := store[ConfigKey(KEY_TOTAL_SUPPLY) := ToBytes(v)];
      ledger := ledger.(supply := v);
    }

    /** Writes the initial rows one after the other; a later row for the same address replaces the earlier. */
    method SetInitialBalances(rows: seq<InitialBalance>) returns (r: Outcome<U128>)
      requires store == map[] && ledger == Ledger(map[], map[], 0)
      modifies this
      ensures r.Ok? <==>
              Canonical(canonical, rows).Ok? && Total(Canonical(canonical, rows).value) < TWO_128
      ensures r.Ok? ==>
                && Entries(store, ledger)
                && r.value == Total(Canonical(canonical, rows).value)
                && ledger == Ledger(Fill(map[], Canonical(canonical, rows).value), map[], 0)
    {
      var total: nat := 0;
      ghost var done: seq<Row> := [];
      for i := 0 to |rows|
        invariant Canonical(canonical, rows[..i]) == Ok(done)
        invariant total == Total(done) < TWO_128
        invariant ledger == Ledger(Fill(map[], done), map[], 0)
        invariant Entries(store, ledger)
      {
        assert rows[..i + 1][..i] == rows[..i];
        var address := canonical(rows[i].address);
        if address.IsFailure() {
          CanonicalPrefix(canonical, rows, i + 1);
          return address.PropagateFailure();
        }
        FillAppend(map[], done, Row(address.value, rows[i].amount));
        done := done + [Row(address.value, rows[i].amount)];
        SetBalance(address.value, rows[i].amount);
        if total + rows[i].amount >= TWO_128 {
          CanonicalTotal(canonical, rows, i + 1);
          return Panic;
        }
        total := total + rows[i].amount;
      }
      assert rows[..|rows|] == rows;
      return Ok(total);
    }

    /** `constants` is the serialised name, symbol and decimals. */
    method Init(rows: seq<InitialBalance>, name: Bytes, symbol: Bytes, decimals: Byte, constants: Bytes)
      returns (r: Outcome<()>)
      requires store == map[] && ledger == Ledger(map[], map[], 0)
      modifies this
      ensures r.Ok? <==>
              && Canonical(canonical, rows).Ok?
              && Total(Canonical(canonical, rows).value) < TWO_128
              && 3 <= |name| <= 30 && decimals <= 18
              && 3 <= |symbol| <= 6 && forall i :: 0 <= i < |symbol| ==> 'A' as int <= symbol[i] <= 'Z' as int
      ensures r.Ok? ==> Valid() && ledger == Initial(Canonical(canonical, rows).value)
    {
      var total := SetInitialBalances(rows);
      if total.IsFailure() { return total.PropagateFailure(); }
      if |name| < 3 || |name| > 30 {
        return Err(GenericErr("Name is not in the expected format (3-30 UTF-8 bytes)"));
      }
      var validSymbol := IsValidSymbol(symbol);
      if !validSymbol {
        return Err(GenericErr("Ticker symbol is not in expected format [A-Z]{3,6}"));
      }
      if decimals > 18 {
        return Err(GenericErr("Decimals must not exceed 18"));
      }
      WriteConfig(store, ledger, KEY_CONSTANTS, constants, ledger);
      store := store[ConfigKey(KEY_CONSTANTS) := constants];
      SetSupply(total.value);
      return Ok(());
    }

    method PerformTransfer(from: Addr, to: Addr, amount: U128) returns (r: Outcome<()>)
      requires Valid()
      modifies this
      ensures Valid() && Applied(ledger, r) == Move(old(ledger), from, to, amount)
    {
      var fromBalance := ReadBalanceOf(from);
      if fromBalance < amount {
        return Err(NO_FUNDS);
      }
      SetBalance(from, fromBalance - amount);
      var toBalance := ReadBalanceOf(to);
      if toBalance + amount >= TWO_128 {
        return Panic;
      }
      SetBalance(to, toBalance + amount);
      return Ok(());
    }

    method TryTransfer(sender: HumanAddr, recipient: HumanAddr, amount: U128) returns (r: Outcome<()>)
      requires Valid()
      modifies this
      ensures Valid()
      ensures if canonical(sender).Ok? && canonical(recipient).Ok?
              then Applied(ledger, r) ==
                   Apply(old(ledger), Transfer(canonical(sender).value, canonical(recipient).value, amount))
              else !r.Ok? && store == old(store) && ledger == old(ledger)
    {
      var from := canonical(sender);
      if from.IsFailure() { return from.PropagateFailure(); }
      var to := canonical(recipient);
      if to.IsFailure() { return to.PropagateFailure(); }
      r := PerformTransfer(from.value, to.value, amount);
    }

    method TryTransferFrom(sender: HumanAddr, owner: HumanAddr, recipient: HumanAddr, amount: U128)
      returns (r: Outcome<()>)
      requires Valid()
      modifies this
      ensures Valid()
      ensures if canonical(sender).Ok? && canonical(owner).Ok? && canonical(recipient).Ok?
              then Applied(ledger, r) ==
                   Apply(old(ledger),
                         TransferFrom(canonical(sender).value, canonical(owner).value, canonical(recipient).value, amount))
              else !r.Ok? && store == old(store) && ledger == old(ledger)
    {
      var spenderRaw := canonical(sender);
      if spenderRaw.IsFailure() { return spenderRaw.PropagateFailure(); }
      var ownerRaw := canonical(owner);
      if ownerRaw.IsFailure() { return ownerRaw.PropagateFailure(); }
      var recipientRaw := canonical(recipient);
      if recipientRaw.IsFailure() { return recipientRaw.PropagateFailure(); }
      var allowance := ReadAllowanceOf(ownerRaw.value, spenderRaw.value);
      if allowance < amount {
        return Err(NO_ALLOWANCE);
      }
      WriteAllowanceOf(ownerRaw.value, spenderRaw.value, allowance - amount);
      r := PerformTransfer(ownerRaw.value, recipientRaw.value, amount);
    }

    method TryApprove(sender: HumanAddr, spender: HumanAddr, amount: U128) returns (r: Outcome<()>)
      requires Valid()
      modifies this
      ensures Valid()
      ensures if canonical(sender).Ok? && canonical(spender).Ok?
              then Applied(ledger, r) ==
                   Apply(old(ledger), Approve(canonical(sender).value, canonical(spender).value, amount))
              else !r.Ok? && store == old(store) && ledger == old(ledger)
    {
      var ownerRaw := canonical(sender);
      if ownerRaw.IsFailure() { return ownerRaw.PropagateFailure(); }
      var spenderRaw := canonical(spender);
      if spenderRaw.IsFailure() { return spenderRaw.PropagateFailure(); }
      WriteAllowanceOf(ownerRaw.value, spenderRaw.value, amount);
      return Ok(());
    }

    method TryBurn(sender: HumanAddr, amount: U128) returns (r: Outcome<()>)
      requires Valid()
      modifies this
      ensures Valid()
      ensures if canonical(sender).Ok?
              then Applied(ledger, r) == Apply(old(ledger), Burn(canonical(sender).value, amount))
              else !r.Ok? && store == old(store) && ledger == old(ledger)
    {
      var ownerRaw := canonical(sender);
      if ownerRaw.IsFailure() { return ownerRaw.PropagateFailure(); }
      var accountBalance := ReadBalanceOf(ownerRaw.value);
      if accountBalance < amount {
        return Err(NO_FUNDS);
      }
      SetBalance(ownerRaw.value, accountBalance - amount);
      ReadEncoded(store[ConfigKey(KEY_TOTAL_SUPPLY)], ledger.supply);
      var totalSupply := BytesToU128(store[ConfigKey(KEY_TOTAL_SUPPLY)]).value;
      if totalSupply < amount {
        return Panic;
      }
      SetSupply(totalSupply - amount);
      return Ok(());
    }

    method Handle(sender: HumanAddr, msg: HandleMsg) returns (r: Outcome<()>)
      requires Valid()
      modifies this
      ensures Valid()
      ensures match CallOf(canonical, sender, msg)
              case Ok(call) => Applied(ledger, r) == Apply(old(ledger), call)
              case _ => !r.Ok? && store == old(store) && ledger == old(ledger)
      // what each message means, in its own addresses
      ensures r.Ok? && msg.MsgTransfer? ==>
                && canonical(sender).Ok? && canonical(msg.recipient).Ok?
                && ledger == old(ledger).(balances := ledger.balances)
                && forall a: Addr ::
                     Get(ledger.balances, a) + If(a == canonical(sender).value, msg.amount) ==
                     Get(old(ledger).balances, a) + If(a == canonical(msg.recipient).value, msg.amount)
      ensures r.Ok? && msg.MsgTransferFrom? ==>
                && canonical(sender).Ok? && canonical(msg.owner).Ok? && canonical(msg.recipient).Ok?
                && var pair := (canonical(msg.owner).value, canonical(sender).value);
                   && msg.amount <= Get(old(ledger).allowances, pair)
                   && ledger.allowances == old(ledger).allowances[pair := Get(old(ledger).allowances, pair) - msg.amount]
                   && ledger.supply == old(ledger).supply
                   && forall a: Addr ::
                        Get(ledger.balances, a) + If(a == canonical(msg.owner).value, msg.amount) ==
                        Get(old(ledger).balances, a) + If(a == canonical(msg.recipient).value, msg.amount)
      ensures r.Ok? && msg.MsgApprove? ==>
                && canonical(sender).Ok? && canonical(msg.spender).Ok?
                && ledger == old(ledger).(allowances := old(ledger).allowances[
                     (canonical(sender).value, canonical(msg.spender).value) := msg.amount])
      ensures r.Ok? && msg.MsgBurn? ==>
                && canonical(sender).Ok?
                && ledger == old(ledger).(balances := ledger.balances, supply := ledger.supply)
                && ledger.supply + msg.amount == old(ledger).supply
                && forall a: Addr ::
                     Get(ledger.balances, a) + If(a == canonical(sender).value, msg.amount) == Get(old(ledger).balances, a)
    {
      match msg
      case MsgApprove(spender, amount) =>
        r := TryApprove(sender, spender, amount);
      case MsgTransfer(recipient, amount) =>
        r := TryTransfer(sender, recipient, amount);
        if r.Ok? {
          MoveOk(old(ledger), canonical(sender).value, canonical(recipient).value, amount);
        }
      case MsgTransferFrom(owner, recipient, amount) =>
        r := TryTransferFrom(sender, owner, recipient, amount);
        if r.Ok? {
          ghost var pair := (canonical(owner).value, canonical(sender).value);
          ghost var l := old(ledger).(allowances := ledger.allowances);
          assert ledger.allowances == old(ledger).allowances[pair := Get(old(ledger).allowances, pair) - amount];
          MoveOk(l, canonical(owner).value, canonical(recipient).value, amount);
        }
      case MsgBurn(amount) =>
        r := TryBurn(sender, amount);
    }

    /** A message as the host delivers it: with `rollback`, a failing one leaves the store as it was. No
        message panics, unless the address conversion does. */
    method Deliver(sender: HumanAddr, msg: HandleMsg, rollback: bool) returns (r: Outcome<()>)
      requires Valid() && Backed(ledger)
      modifies this
      ensures Valid() && Backed(ledger)
      ensures match CallOf(canonical, sender, msg)
              case Ok(call) => ledger == Step(old(ledger), call, rollback) && !r.Panic?
              case _ => ledger == old(ledger) && !r.Ok?
      // exactly when each message succeeds
      ensures msg.MsgApprove? ==> (r.Ok? <==> canonical(sender).Ok? && canonical(msg.spender).Ok?)
      ensures msg.MsgTransfer? ==>
                (r.Ok? <==>
                   && canonical(sender).Ok? && canonical(msg.recipient).Ok?
                   && msg.amount <= Get(old(ledger).balances, canonical(sender).value))
      ensures msg.MsgTransferFrom? ==>
                (r.Ok? <==>
                   && canonical(sender).Ok? && canonical(msg.owner).Ok? && canonical(msg.recipient).Ok?
                   && msg.amount <= Get(old(ledger).allowances, (canonical(msg.owner).value, canonical(sender).value))
                   && msg.amount <= Get(old(ledger).balances, canonical(msg.owner).value))
      ensures msg.MsgBurn? ==>
                (r.Ok? <==> canonical(sender).Ok? && msg.amount <= Get(old(ledger).balances, canonical(sender).value))
    {
      var before := store;
      ghost var was := ledger;
      r := Handle(sender, msg);
      if CallOf(canonical, sender, msg).Ok? {
        ApplyKeeps(was, CallOf(canonical, sender, msg).value);
        CallCovered(was, CallOf(canonical, sender, msg).value);
      }
      if rollback && !r.Ok? {
        store := before;
        ledger := was;
      }
    }

    /** Delivers messages one after the other. */
    method DeliverAll(msgs: seq<Signed>, rollback: bool) returns (results: seq<Outcome<()>>)
      requires Valid() && Backed(ledger)
      modifies this
      ensures Valid() && Backed(ledger)
      ensures ledger == Run(old(ledger), CallsOf(canonical, msgs), rollback)
      ensures |results| == |msgs| && forall i :: 0 <= i < |msgs| && results[i].Panic? ==>
                !CallOf(canonical, msgs[i].sender, msgs[i].msg).Ok?
    {
      results := [];
      for i := 0 to |msgs|
        invariant Valid() && Backed(ledger)
        invariant Run(ledger, CallsOf(canonical, msgs[i..]), rollback) ==
                  Run(old(ledger), CallsOf(canonical, msgs), rollback)
        invariant |results| == i && forall k :: 0 <= k < i && results[k].Panic? ==>
                    !CallOf(canonical, msgs[k].sender, msgs[k].msg).Ok?
      {
        ghost var was := ledger;
        var r := Deliver(msgs[i].sender, msgs[i].msg, rollback);
        assert msgs[i..][1..] == msgs[i + 1..];
        RunCalls(canonical, was, msgs[i..], rollback);
        results := results + [r];
      }
    }

    /** The life of a token: initialisation, then any messages. Every read along the way succeeds, no message
        panics, and the books balance in the end. */
    method Live(rows: seq<InitialBalance>, name: Bytes, symbol: Bytes, decimals: Byte, constants: Bytes,
                msgs: seq<Signed>, rollback: bool) returns (r: Outcome<()>, results: seq<Outcome<()>>)
      requires store == map[] && ledger == Ledger(map[], map[], 0)
      modifies this
      ensures r.Ok? ==> Canonical(canonical, rows).Ok? && Valid()
      ensures r.Ok? ==>
                var initial := Canonical(canonical, rows).value;
                && ledger == Run(Initial(initial), CallsOf(canonical, msgs), rollback)
                && ledger.supply == Sum(ledger.balances) + Replaced(map[], initial)
                && |results| == |msgs|
                && forall i :: 0 <= i < |msgs| && results[i].Panic? ==>
                     !CallOf(canonical, msgs[i].sender, msgs[i].msg).Ok?
    {
      results := [];
      r := Init(rows, name, symbol, decimals, constants);
      if r.Ok? {
        Conservation(Canonical(canonical, rows).value, [], rollback);
        Conservation(Canonical(canonical, rows).value, CallsOf(canonical, msgs), rollback);
        results := DeliverAll(msgs, rollback);
      }
    }

    method QueryBalance(address: HumanAddr) returns (r: Outcome<nat>)
      requires Valid()
      ensures canonical(address).Ok? ==> r == Ok(Get(ledger.balances, canonical(address).value))
      ensures !canonical(address).Ok? ==> !r.Ok?
    {
      var key := canonical(address);
      if key.IsFailure() { return key.PropagateFailure(); }
      var balance := ReadBalanceOf(key.value);
      r := Ok(balance);
    }

    method QueryAllowance(owner: HumanAddr, spender: HumanAddr) returns (r: Outcome<nat>)
      requires Valid()
      ensures if canonical(owner).Ok? && canonical(spender).Ok?
              then r == Ok(Get(ledger.allowances, (canonical(owner).value, canonical(spender).value)))
              else !r.Ok?
    {
      var ownerKey := canonical(owner);
      if ownerKey.IsFailure() { return ownerKey.PropagateFailure(); }
      var spenderKey := canonical(spender);
      if spenderKey.IsFailure() { return spenderKey.PropagateFailure(); }
      var allowance := ReadAllowanceOf(ownerKey.value, spenderKey.value);
      r := Ok(allowance);
    }
  }

  /** All rows convert or none is kept, and each keeps its place and amount. */
  lemma {:induction false} CanonicalExact(canonical: HumanAddr -> Outcome<Addr>, rows: seq<InitialBalance>)
    ensures Canonical(canonical, rows).Ok? <==> forall i :: 0 <= i < |rows| ==> canonical(rows[i].address).Ok?
    ensures Canonical(canonical, rows).Ok? ==>
              var r := Canonical(canonical, rows).value;
              |r| == |rows| && forall i :: 0 <= i < |rows| ==>
                canonical(rows[i].address) == Ok(r[i].address) && r[i].amount == rows[i].amount
    decreases |rows|
  {
    if rows != [] {
      var front := rows[..|rows| - 1];
      CanonicalExact(canonical, front);
      assert forall i :: 0 <= i < |front| ==> front[i] == rows[i];
    }
  }

  /** Conversion fails as soon as some prefix fails. */
  lemma {:induction false} CanonicalPrefix(canonical: HumanAddr -> Outcome<Addr>, rows: seq<InitialBalance>, n: nat)
    requires n <= |rows| && !Canonical(canonical, rows[..n]).Ok?
    ensures !Canonical(canonical, rows).Ok?
    decreases |rows|
  {
    if n == |rows| {
      assert rows[..n] == rows;
    } else {
      assert rows[..|rows| - 1][..n] == rows[..n];
      CanonicalPrefix(canonical, rows[..|rows| - 1], n);
    }
  }

  /** Later rows only add to the total. */
  lemma {:induction false} CanonicalTotal(canonical: HumanAddr -> Outcome<Addr>, rows: seq<InitialBalance>, n: nat)
    requires n <= |rows| && Canonical(canonical, rows[..n]).Ok?
    ensures Canonical(canonical, rows).Ok? ==>
              Total(Canonical(canonical, rows[..n]).value) <= Total(Canonical(canonical, rows).value)
    decreases |rows|
  {
    if n == |rows| {
      assert rows[..n] == rows;
    } else {
      assert rows[..|rows| - 1][..n] == rows[..n];
      CanonicalTotal(canonical, rows[..|rows| - 1], n);
      if Canonical(canonical, rows).Ok? {
        var init := Canonical(canonical, rows[..|rows| - 1]).value;
        FillAppend(map[], init, Row(canonical(rows[|rows| - 1].address).value, rows[|rows| - 1].amount));
      }
    }
  }
}
