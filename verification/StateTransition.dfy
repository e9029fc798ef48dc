/** Applying messages: buying gas, running the machine, refunding, paying the miner, and the gas pool of
    a block.

    The virtual machine is a parameter: given the balances, a message and gas it returns new balances, the
    gas left and a refund counter.  All that is asked of it is that it conserves the total balance, does
    not overdraw and does not make gas.  Machine integers are `uint64`, so every addition and subtraction
    below is proved not to wrap; balances and prices are unbounded.
 */
module StateTransitionModel {
  import opened Options

  type Address = nat
  type Balances = map<Address, int>

  const TWO_TO_64 := 0x1_0000_0000_0000_0000
  newtype uint64 = x: int | 0 <= x < TWO_TO_64
  const MAX_UINT64: uint64 := 0xFFFF_FFFF_FFFF_FFFF
  newtype byte = x: int | 0 <= x < 256

  const TX_GAS: uint64 := 21000
  const TX_GAS_CONTRACT_CREATION: uint64 := 53000
  const TX_DATA_ZERO_GAS: uint64 := 4
  const TX_DATA_NON_ZERO_GAS: uint64 := 16
  const TX_ACCESS_LIST_ADDRESS_GAS := 2400
  const TX_ACCESS_LIST_STORAGE_KEY_GAS := 1900
  const REFUND_QUOTIENT: uint64 := 5

  datatype AccessList = AccessList(addresses: nat, storageKeys: nat)

  /** A message; `fake` ones skip the nonce and sender checks, `noBaseFee` stands for a machine configured
      without base fee. */
  datatype Message = Message(from: Address, to: Option<Address>, nonce: nat, gas: uint64, gasPrice: int, feeCap: nat,
                             tipCap: nat,
                             value: nat, data: seq<byte>, access: Option<AccessList>, fake: bool, noBaseFee: bool)

  /** The price a transaction pays per unit of gas, given the block's base fee. */
  function EffectivePrice(tipCap: nat, feeCap: nat, baseFee: nat): int {
    Min(tipCap + baseFee, feeCap)
  }

  function EffectiveTip(tipCap: nat, feeCap: nat, baseFee: nat): int {
    Min(tipCap, feeCap - baseFee)
  }

  function Min(a: int, b: int): int {
    if a <= b then a else b
  }

  // ---------- balances ----------

  function Balance(b: Balances, a: Address): int {
    if a in b then b[a] else 0
  }

  function Credit(b: Balances, a: Address, amount: int): Balances {
    b[a := Balance(b, a) + amount]
  }

  ghost function Sum(b: Balances): int
    decreases b.Keys
  {
    if b == map[] then 0 else var a :| a in b; b[a] + Sum(b - {a})
  }

  lemma {:induction false} SumTake(b: Balances, a: Address)
    requires a in b
    ensures Sum(b) == b[a] + Sum(b - {a})
    decreases b.Keys
  {
    var c :| c in b && Sum(b) == b[c] + Sum(b - {c});
    if c != a {
      SumTake(b - {c}, a);
      SumTake(b - {a}, c);
      assert b - {c} - {a} == b - {a} - {c};
    }
  }

  lemma SumCredit(b: Balances, a: Address, amount: int)
    ensures Sum(Credit(b, a, amount)) == Sum(b) + amount
  {
    var b' := Credit(b, a, amount);
    SumTake(b', a);
    assert b' - {a} == b - {a};
    if a in b {
      SumTake(b, a);
    } else {
      assert b - {a} == b;
    }
  }

  ghost predicate NoDebt(b: Balances) {
    forall a <- b :: b[a] >= 0
  }

  // ---------- the machine ----------

  /** The part of the state that matters here. */
  datatype World = World(balances: Balances, nonces: map<Address, nat>, contracts: set<Address>)

  function Nonce(w: World, a: Address): nat {
    if a in w.nonces then w.nonces[a] else 0
  }

  datatype Outcome = Outcome(world: World, gasLeft: uint64, refund: uint64, failed: bool)

  type Machine = (World, Message, uint64) -> Outcome

  ghost predicate Fair(o: Outcome, w: World, msg: Message, gas: uint64) {
    && o.gasLeft <= gas && Sum(o.world.balances) == Sum(w.balances)
    && (NoDebt(w.balances) && msg.value <= Balance(w.balances, msg.from) ==> NoDebt(o.world.balances))
  }

  ghost predicate IsFair(machine: Machine) {
    forall w, msg, gas :: Fair(machine(w, msg, gas), w, msg, gas)
  }

  // ---------- intrinsic gas ----------

  function NonZero(data: seq<byte>): nat {
    if data == [] then 0 else NonZero(data[..|data| - 1]) + if data[|data| - 1] != 0 then 1 else 0
  }

  function BaseGas(creation: bool, cip1: bool): uint64 {
    if cip1 then TX_GAS else if creation then TX_GAS_CONTRACT_CREATION else 0
  }

  /** What a message costs before it runs, leaving its access list aside. */
  function DataGas(data: seq<byte>, creation: bool, cip1: bool): nat {
    NonZeroBound(data);
    BaseGas(creation, cip1) as int + 16 * NonZero(data) + 4 * (|data| - NonZero(data))
  }

  function AccessGas(access: Option<AccessList>): nat {
    match access
    case None => 0
    case Some(list) => list.addresses * TX_ACCESS_LIST_ADDRESS_GAS + list.storageKeys * TX_ACCESS_LIST_STORAGE_KEY_GAS
  }

  /** The overflow guard of one term is exact. */
  lemma GuardIsExact(room: nat, p: nat, n: nat)
    requires p > 0
    ensures room / p < n <==> room < p * n
  {
    var q := room / p;
    assert room == q * p + room % p && 0 <= room % p < p;
    if q < n {
      Scaled(q + 1, n, p);
    } else {
      Scaled(n, q, p);
    }
  }

  lemma Scaled(a: nat, b: nat, k: nat)
    requires a <= b
    ensures a * k <= b * k
  {
  }

  lemma {:induction false} NonZeroBound(data: seq<byte>)
    ensures NonZero(data) <= |data|
  {
    if data != [] {
      NonZeroBound(data[..|data| - 1]);
    }
  }

  method CountNonZero(data: seq<byte>) returns (nz: uint64)
    requires |data| < TWO_TO_64
    ensures nz as int == NonZero(data) <= |data|
  {
    nz := 0;
    for i := 0 to |data|
      invariant nz as int == NonZero(data[..i]) <= i
    {
      assert data[..i + 1][..i] == data[..i];
      if data[i] != 0 {
        nz := nz + 1;
      }
    }
    assert data[..|data|] == data;
  }

  /** Whether `n` units at a price are more than there is room for. */
  method TooMany(room: nat, price: nat, n: nat) returns (many: bool)
    requires price > 0
    ensures many <==> room < price * n
  {
    GuardIsExact(room, price, n);
    many := room / price < n;
  }

  /** Adds `n` units at a price unless that overflows. */
  method AddTerm(gas: uint64, price: uint64, n: uint64) returns (r: Option<uint64>)
    requires price > 0
    ensures var sum := gas as int + price as int * n as int;
            if sum >= TWO_TO_64 then r.None? else r.Some? && r.value as int == sum
  {
    NonNegative(price as int, n as int);
    var many := TooMany((MAX_UINT64 - gas) as int, price as int, n as int);
    if many {
      return None;
    }
    var cost: int := price as int * n as int;
    r := Some((gas as int + cost) as uint64);
  }

  function Wrap(x: nat): uint64 {
    (x % TWO_TO_64) as uint64
  }

  lemma WrapTwice(a: nat, b: nat)
    ensures Wrap(Wrap(a) as int + b) == Wrap(a + b)
  {
    var m, q := TWO_TO_64, a / TWO_TO_64;
    assert a == q * m + a % m;
    assert (a + b) % m == (a % m + b) % m by {
      var k := (a % m + b) / m;
      assert a + b == (q + k) * m + (a % m + b) % m;
    }
  }

  function AddAccess(gas: uint64, access: Option<AccessList>): (r: uint64)
    ensures r == Wrap(gas as int + AccessGas(access))
  {
    match access
    case None => gas
    case Some(list) =>
      WrapTwice(gas as int + list.addresses * TX_ACCESS_LIST_ADDRESS_GAS,
                list.storageKeys * TX_ACCESS_LIST_STORAGE_KEY_GAS);
      Wrap(Wrap(gas as int + list.addresses * TX_ACCESS_LIST_ADDRESS_GAS) as int + list.storageKeys * TX_ACCESS_LIST_STORAGE_KEY_GAS)
  }

  /** The intrinsic gas, or nothing if the data term overflows.  The access list is added without a guard,
      so that part wraps around. */
  method IntrinsicGas(data: seq<byte>, access: Option<AccessList>, creation: bool, cip1: bool)
    returns (r: Option<uint64>)
    requires |data| < TWO_TO_64
    ensures r.None? <==> DataGas(data, creation, cip1) >= TWO_TO_64
    ensures r.Some? ==> r.value == Wrap(DataGas(data, creation, cip1) + AccessGas(access))
  {
    var gas: uint64 := 0;
    if creation {
      gas := TX_GAS_CONTRACT_CREATION;
    }
    if cip1 {
      gas := TX_GAS;
    }
    if |data| > 0 {
      var nz := CountNonZero(data);
      var sum := AddTerm(gas, TX_DATA_NON_ZERO_GAS, nz);
      if sum.None? {
        return None;
      }
      sum := AddTerm(sum.value, TX_DATA_ZERO_GAS, |data| as uint64 - nz);
      if sum.None? {
        return None;
      }
      gas := sum.value;
    }
    assert gas as int == DataGas(data, creation, cip1);
    r := Some(AddAccess(gas, access));
  }

  // ---------- the gas pool ----------

  class GasPool {
    var gas: uint64

    constructor (limit: uint64)
      ensures gas == limit
    {
      gas := limit;
    }

    /** The source panics rather than push the pool above its width. */
    method AddGas(amount: uint64)
      requires amount as int + gas as int < TWO_TO_64
      modifies this
      ensures gas == old(gas) + amount
    {
      gas := gas + amount;
    }

    method SubGas(amount: uint64) returns (ok: bool)
      modifies this
      ensures ok <==> amount <= old(gas)
      ensures gas == if ok then old(gas) - amount else old(gas)
    {
      if gas < amount {
        return false;
      }
      gas := gas - amount;
      ok := true;
    }
  }

  class StateDB {
    var world: World

    constructor (world: World)
      ensures this.world == world
    {
      this.world := world;
    }
  }

  // ---------- one message ----------

  datatype Fault =
    | NonceTooHigh | NonceTooLow | SenderNoEOA | FeeCapVeryHigh | TipVeryHigh | TipAboveFeeCap | FeeCapTooLow
    | InsufficientFunds | GasLimitReached
    | GasUintOverflow | IntrinsicGasTooLow | InsufficientFundsForTransfer

  datatype Result = Applied(usedGas: uint64, failed: bool) | Rejected(fault: Fault)

  const TWO_TO_256 := TWO_TO_64 * TWO_TO_64 * TWO_TO_64 * TWO_TO_64

  /** Whether the fee fields are checked at all. */
  predicate FeesChecked(msg: Message) {
    !msg.noBaseFee || msg.feeCap > 0 || msg.tipCap > 0
  }

  /** The checks made before gas is bought, in order. */
  function Screen(msg: Message, nonce: nat, isContract: bool, baseFee: nat): (fault: Option<Fault>)
    ensures fault.None? && FeesChecked(msg) ==> msg.tipCap <= msg.feeCap && baseFee <= msg.feeCap
    ensures fault.None? && !msg.fake ==> nonce == msg.nonce && !isContract
  {
    if !msg.fake && nonce < msg.nonce then Some(NonceTooHigh)
    else if !msg.fake && nonce > msg.nonce then Some(NonceTooLow)
    else if !msg.fake && isContract then Some(SenderNoEOA)
    else if !FeesChecked(msg) then None
    else if msg.feeCap >= TWO_TO_256 then Some(FeeCapVeryHigh)
    else if msg.tipCap >= TWO_TO_256 then Some(TipVeryHigh)
    else if msg.feeCap < msg.tipCap then Some(TipAboveFeeCap)
    else if msg.feeCap < baseFee then Some(FeeCapTooLow)
    else None
  }

  /** Why a message is turned away, if it is. */
  ghost function Verdict(w: World, available: uint64, msg: Message, baseFee: nat, cip1: bool): Option<Fault> {
    var fault := Screen(msg, Nonce(w, msg.from), msg.from in w.contracts, baseFee);
    if fault.Some? then fault
    else if Balance(w.balances, msg.from) < msg.gas as int * msg.feeCap + msg.value then Some(InsufficientFunds)
    else if available < msg.gas then Some(GasLimitReached)
    else if DataGas(msg.data, msg.to.None?, cip1) >= TWO_TO_64 then Some(GasUintOverflow)
    else if msg.gas < Intrinsic(msg, cip1) then Some(IntrinsicGasTooLow)
    else None
  }

  function Intrinsic(msg: Message, cip1: bool): uint64 {
    Wrap(DataGas(msg.data, msg.to.None?, cip1) + AccessGas(msg.access))
  }

  /** The state in which the machine starts: the whole gas is paid for, and a call has used up its nonce. */
  function Prepaid(w: World, msg: Message): World {
    w.(balances := Credit(w.balances, msg.from, -(msg.gas as int * msg.gasPrice)))
  }

  function Started(w: World, msg: Message): World {
    if msg.to.Some? then w.(nonces := w.nonces[msg.from := Nonce(w, msg.from) + 1]) else w
  }

  /** Gas the sender gets back: what the machine left plus a refund of at most a fifth of what it used. */
  function LeftOver(gas: uint64, o: Outcome): (left: uint64)
    requires o.gasLeft <= gas
    ensures o.gasLeft <= left <= gas && 5 * (left - o.gasLeft) as int <= (gas - o.gasLeft) as int
  {
    var cap := (gas - o.gasLeft) / REFUND_QUOTIENT;
    o.gasLeft + if cap > o.refund then o.refund else cap
  }

  datatype Effect = Effect(world: World, usedGas: uint64, failed: bool)

  /** What the machine makes of an accepted message. */
  ghost function Ran(w: World, msg: Message, machine: Machine, cip1: bool): (o: Outcome)
    requires IsFair(machine) && Intrinsic(msg, cip1) <= msg.gas
    ensures Fair(o, Started(Prepaid(w, msg), msg), msg, msg.gas - Intrinsic(msg, cip1))
  {
    machine(Started(Prepaid(w, msg), msg), msg, msg.gas - Intrinsic(msg, cip1))
  }

  /** What an accepted message does. */
  ghost function EffectOf(w: World, msg: Message, machine: Machine, baseFee: nat, coinbase: Address, cip1: bool): Effect
    requires IsFair(machine) && Intrinsic(msg, cip1) <= msg.gas
  {
    var o := Ran(w, msg, machine, cip1);
    var left := LeftOver(msg.gas, o);
    var used := msg.gas - left;
    Effect(o.world.(balances := Settle(o.world.balances, msg, left as int, used as int, baseFee, coinbase)), used,
           o.failed)
  }

  /** Price and tip always differ by the base fee, whichever cap binds. */
  lemma PriceSplits(tipCap: nat, feeCap: nat, baseFee: nat)
    ensures EffectivePrice(tipCap, feeCap, baseFee) == EffectiveTip(tipCap, feeCap, baseFee) + baseFee
    ensures 0 <= EffectivePrice(tipCap, feeCap, baseFee) <= feeCap
    ensures EffectiveTip(tipCap, feeCap, baseFee) >= 0 <==> baseFee <= feeCap
  {
  }

  /** What the sender prepays leaves enough for the transfer. */
  lemma PrepaidLeavesValue(balance: int, gas: nat, price: nat, feeCap: nat, value: nat)
    requires price <= feeCap && gas * feeCap + value <= balance
    ensures value <= balance - gas * price
  {
    assert gas * price <= gas * feeCap;
  }

  /** Prepaying, refunding the rest and tipping the miner burns the base fee of what was used. */
  lemma OnlyBaseFeeBurns(gas: nat, left: nat, used: nat, price: int, tip: int, baseFee: int)
    requires price == tip + baseFee && left + used == gas
    ensures -(gas * price) + left * price + used * tip == -(used * baseFee)
  {
  }

  lemma CreditNoDebt(b: Balances, a: Address, amount: int)
    requires NoDebt(b) && Balance(b, a) + amount >= 0
    ensures NoDebt(Credit(b, a, amount))
  {
  }

  /** The balances once a message has run: what is left is handed back, the miner gets the tip on the rest. */
  function Settle(b: Balances, msg: Message, left: nat, used: nat, baseFee: nat, coinbase: Address): Balances {
    var b1 := Credit(b, msg.from, left * msg.gasPrice);
    Credit(b1, coinbase, used * EffectiveTip(msg.tipCap, msg.feeCap, baseFee))
  }

  ghost predicate Priced(msg: Message, baseFee: nat) {
    msg.gasPrice == EffectivePrice(msg.tipCap, msg.feeCap, baseFee)
  }

  lemma SettlementBurns(b0: Balances, b: Balances, msg: Message, left: nat, used: nat, baseFee: nat, coinbase: Address)
    requires Priced(msg, baseFee) && left + used == msg.gas as int && Sum(b) == Sum(b0) - msg.gas as int * msg.gasPrice
    ensures Sum(Settle(b, msg, left, used, baseFee, coinbase)) == Sum(b0) - used * baseFee
  {
    var tip := EffectiveTip(msg.tipCap, msg.feeCap, baseFee);
    PriceSplits(msg.tipCap, msg.feeCap, baseFee);
    SumCredit(b, msg.from, left * msg.gasPrice);
    SumCredit(Credit(b, msg.from, left * msg.gasPrice), coinbase, used * tip);
    OnlyBaseFeeBurns(msg.gas as int, left, used, msg.gasPrice, tip, baseFee);
  }

  /** What the miner gets, or pays, in a settlement decides whether anybody ends up in debt. */
  lemma SettlementDebt(b: Balances, msg: Message, left: nat, used: nat, baseFee: nat, coinbase: Address)
    requires Priced(msg, baseFee) && NoDebt(b)
    ensures var due := used * EffectiveTip(msg.tipCap, msg.feeCap, baseFee);
            NoDebt(Settle(b, msg, left, used, baseFee, coinbase)) <==>
            0 <= Balance(Credit(b, msg.from, left * msg.gasPrice), coinbase) + due
  {
    PriceSplits(msg.tipCap, msg.feeCap, baseFee);
    NonNegative(left, msg.gasPrice);
    var b1 := Credit(b, msg.from, left * msg.gasPrice);
    var due := used * EffectiveTip(msg.tipCap, msg.feeCap, baseFee);
    CreditNoDebt(b, msg.from, left * msg.gasPrice);
    if 0 <= Balance(b1, coinbase) + due {
      CreditNoDebt(b1, coinbase, due);
    } else {
      assert Credit(b1, coinbase, due)[coinbase] < 0;
    }
  }

  lemma Negated(a: int, b: int)
    ensures a * (0 - b) == -(a * b)
  {
  }

  lemma NonNegative(a: int, b: int)
    requires a >= 0 && b >= 0
    ensures a * b >= 0
  {
  }

  /** With the caps in order nobody pays more than there is; with both at zero the miner pays the base fee. */
  lemma SettlementDebtByCaps(b: Balances, msg: Message, left: nat, used: nat, baseFee: nat, coinbase: Address)
    requires Priced(msg, baseFee) && left + used == msg.gas as int && NoDebt(b)
    requires if FeesChecked(msg) then baseFee <= msg.feeCap else msg.feeCap == msg.tipCap == 0
    ensures NoDebt(Settle(b, msg, left, used, baseFee, coinbase)) <==> FeesChecked(msg) || used * baseFee <= Balance(b, coinbase)
  {
    SettlementDebt(b, msg, left, used, baseFee, coinbase);
    PriceSplits(msg.tipCap, msg.feeCap, baseFee);
    NonNegative(left, msg.gasPrice);
    if FeesChecked(msg) {
      NonNegative(used, EffectiveTip(msg.tipCap, msg.feeCap, baseFee));
    } else {
      Negated(used, baseFee);
    }
  }

  /** The accounts as the machine leaves them have lost what was prepaid, and owe nothing. */
  lemma RanConserves(w: World, available: uint64, msg: Message, machine: Machine, baseFee: nat, cip1: bool)
    requires IsFair(machine) && Priced(msg, baseFee) && Verdict(w, available, msg, baseFee, cip1).None?
    ensures var b := Ran(w, msg, machine, cip1).world.balances;
            && Sum(b) == Sum(w.balances) - msg.gas as int * msg.gasPrice
            && (NoDebt(w.balances) ==> NoDebt(b))
  {
    var price := msg.gas as int * msg.gasPrice;
    SumCredit(w.balances, msg.from, -price);
    TransferCannotFail(w, available, msg, baseFee, cip1);
    if NoDebt(w.balances) {
      CreditNoDebt(w.balances, msg.from, -price);
    }
  }

  /** Only the base fee of the gas used leaves the accounts, and at least four fifths of the intrinsic gas
      are charged. */
  lemma EffectBurnsBaseFee(w: World, available: uint64, msg: Message, machine: Machine, baseFee: nat, coinbase: Address,
                           cip1: bool)
    requires IsFair(machine) && Priced(msg, baseFee) && Verdict(w, available, msg, baseFee, cip1).None?
    ensures var e := EffectOf(w, msg, machine, baseFee, coinbase, cip1);
            && e.usedGas <= msg.gas && 5 * e.usedGas as int >= 4 * Intrinsic(msg, cip1) as int
            && Sum(e.world.balances) == Sum(w.balances) - e.usedGas as int * baseFee
  {
    RanConserves(w, available, msg, machine, baseFee, cip1);
    var o := Ran(w, msg, machine, cip1);
    var left := LeftOver(msg.gas, o);
    SettlementBurns(w.balances, o.world.balances, msg, left as int, (msg.gas - left) as int, baseFee, coinbase);
  }

  /** Nobody ends up in debt exactly if fees were checked or the miner can pay the base fee of the gas used. */
  lemma EffectLeavesNoDebt(w: World, available: uint64, msg: Message, machine: Machine, baseFee: nat, coinbase: Address,
                           cip1: bool)
    requires IsFair(machine) && Priced(msg, baseFee) && Verdict(w, available, msg, baseFee, cip1).None?
    requires NoDebt(w.balances)
    ensures var e := EffectOf(w, msg, machine, baseFee, coinbase, cip1);
            NoDebt(e.world.balances) <==>
            FeesChecked(msg) || e.usedGas as int * baseFee <= Balance(Ran(w, msg, machine, cip1).world.balances,
                                                                      coinbase)
  {
    RanConserves(w, available, msg, machine, baseFee, cip1);
    var o := Ran(w, msg, machine, cip1);
    var left := LeftOver(msg.gas, o);
    SettlementDebtByCaps(o.world.balances, msg, left as int, (msg.gas - left) as int, baseFee, coinbase);
  }

  /** A message with zero caps from a caller that set no base fee. */
  function UnpricedCall(from: Address, to: Address): Message {
    Message(from, Some(to), 0, TX_GAS, 0, 0, 0, 0, [], None, true, true)
  }

  /** A machine that does nothing and uses all gas. */
  function Idling(w: World, msg: Message, gas: uint64): Outcome {
    Outcome(w, 0, 0, false)
  }

  /** An unpriced call is accepted in the empty state and leaves the miner owing the base fee of its gas. */
  lemma UncheckedFeesOverdraw(from: Address, to: Address, baseFee: nat, coinbase: Address, available: uint64)
    requires baseFee > 0 && coinbase != from && TX_GAS <= available
    ensures var w, msg := World(map[], map[], {}), UnpricedCall(from, to);
            && IsFair(Idling) && Priced(msg, baseFee) && Verdict(w, available, msg, baseFee, true).None?
            && Balance(EffectOf(w, msg, Idling, baseFee, coinbase, true).world.balances, coinbase) == -(TX_GAS as int * baseFee) < 0
  {
    var w, msg := World(map[], map[], {}), UnpricedCall(from, to);
    assert Intrinsic(msg, true) == TX_GAS;
    var e := EffectOf(w, msg, Idling, baseFee, coinbase, true);
    var o := Ran(w, msg, Idling, true);
    assert LeftOver(msg.gas, o) == 0;
    assert Balance(o.world.balances, coinbase) == 0;
    Negated(TX_GAS as int, baseFee);
  }

  /** Whoever could afford the gas at its cap still has the value to transfer once the gas is paid. */
  lemma TransferCannotFail(w: World, available: uint64, msg: Message, baseFee: nat, cip1: bool)
    requires Priced(msg, baseFee) && Verdict(w, available, msg, baseFee, cip1).None?
    ensures msg.value <= Balance(Prepaid(w, msg).balances, msg.from)
  {
    PriceSplits(msg.tipCap, msg.feeCap, baseFee);
    PrepaidLeavesValue(Balance(w.balances, msg.from), msg.gas as int, msg.gasPrice, msg.feeCap, msg.value);
  }

  class StateTransition {
    const msg: Message
    const gp: GasPool
    const db: StateDB
    const baseFee: nat
    const coinbase: Address
    const cip1: bool
    var gas: uint64
    var initialGas: uint64

    constructor (msg: Message, gp: GasPool, db: StateDB, baseFee: nat, coinbase: Address, cip1: bool)
      ensures this.msg == msg && this.gp == gp && this.db == db
      ensures this.baseFee == baseFee && this.coinbase == coinbase && this.cip1 == cip1
      ensures gas == 0 && initialGas == 0
    {
      this.msg, this.gp, this.db, this.baseFee, this.coinbase, this.cip1 := msg, gp, db, baseFee, coinbase, cip1;
      gas, initialGas := 0, 0;
    }

    /** Takes the message's whole gas from the block and its price from the sender. */
    method BuyGas() returns (fault: Option<Fault>)
      requires gas == 0
      modifies this, gp, db
      ensures fault == (if Balance(old(db.world).balances, msg.from) < msg.gas as int * msg.feeCap + msg.value then Some(InsufficientFunds)
                        else if old(gp.gas) < msg.gas then Some(GasLimitReached) else None)
      ensures fault.None? ==> gas == initialGas == msg.gas && gp.gas == old(gp.gas) - msg.gas && db.world == Prepaid(old(db.world), msg)
      ensures fault.Some? ==> gp.gas == old(gp.gas) && db.world == old(db.world)
    {
      if Balance(db.world.balances, msg.from) < msg.gas as int * msg.feeCap + msg.value {
        return Some(InsufficientFunds);
      }
      var ok := gp.SubGas(msg.gas);
      if !ok {
        return Some(GasLimitReached);
      }
      gas := gas + msg.gas;
      initialGas := msg.gas;
      db.world := db.world.(balances := Credit(db.world.balances, msg.from, -(msg.gas as int * msg.gasPrice)));
      fault := None;
    }

    /** Hands back refunded and unused gas, to the sender at the price paid and to the block. */
    method RefundGas(ghost o: Outcome, refund: uint64)
      requires gas == o.gasLeft <= initialGas && refund == o.refund && gp.gas as int + initialGas as int < TWO_TO_64
      modifies this`gas, gp, db
      ensures gas == LeftOver(initialGas, o) && gp.gas == old(gp.gas) + gas
      ensures db.world == old(db.world).(balances := Credit(old(db.world).balances, msg.from,
                                                            gas as int * msg.gasPrice))
    {
      var back := (initialGas - gas) / REFUND_QUOTIENT;
      if back > refund {
        back := refund;
      }
      gas := gas + back;
      db.world := db.world.(balances := Credit(db.world.balances, msg.from, gas as int * msg.gasPrice));
      gp.AddGas(gas);
    }

    /** Applies the message or says why not.  The block loses exactly the gas used.  Gas bought before a
        message turns out to lack intrinsic gas is not handed back. */
    method TransitionDb(machine: Machine) returns (r: Result)
      requires gas == 0 && IsFair(machine) && Priced(msg, baseFee) && |msg.data| < TWO_TO_64
      modifies this, gp, db
      ensures match Verdict(old(db.world), old(gp.gas), msg, baseFee, cip1)
              case Some(fault) => r == Rejected(fault)
              case None =>
                && r.Applied? && Effect(db.world, r.usedGas, r.failed) == EffectOf(old(db.world), msg, machine, baseFee, coinbase, cip1)
                && gp.gas as int == old(gp.gas) as int - r.usedGas as int
      ensures r == Rejected(IntrinsicGasTooLow) || r == Rejected(GasUintOverflow) ==>
                db.world == Prepaid(old(db.world), msg) && gp.gas as int == old(gp.gas) as int - msg.gas as int
      ensures r.Rejected? && r.fault != IntrinsicGasTooLow && r.fault != GasUintOverflow ==>
                db.world == old(db.world) && gp.gas == old(gp.gas)
    {
      var fault := Screen(msg, Nonce(db.world, msg.from), msg.from in db.world.contracts, baseFee);
      if fault.Some? {
        return Rejected(fault.value);
      }
      fault := BuyGas();
      if fault.Some? {
        return Rejected(fault.value);
      }
      var intrinsic := IntrinsicGas(msg.data, msg.access, msg.to.None?, cip1);
      if intrinsic.None? {
        return Rejected(GasUintOverflow);
      }
      if gas < intrinsic.value {
        return Rejected(IntrinsicGasTooLow);
      }
      gas := gas - intrinsic.value;
      TransferCannotFail(old(db.world), old(gp.gas), msg, baseFee, cip1);
      if msg.value > 0 && Balance(db.world.balances, msg.from) < msg.value {
        return Rejected(InsufficientFundsForTransfer);
      }
      r := Execute(machine, old(db.world));
    }

    /** Runs the machine and settles the bill. */
    method Execute(machine: Machine, ghost w: World) returns (r: Result)
      requires IsFair(machine) && Intrinsic(msg, cip1) <= msg.gas == initialGas && gas == msg.gas - Intrinsic(msg, cip1)
      requires db.world == Prepaid(w, msg) && gp.gas as int + msg.gas as int < TWO_TO_64
      modifies this, gp, db
      ensures r.Applied? && Effect(db.world, r.usedGas, r.failed) == EffectOf(w, msg, machine, baseFee, coinbase, cip1)
      ensures gp.gas as int == old(gp.gas) as int + msg.gas as int - r.usedGas as int
    {
      if msg.to.Some? {
        db.world := db.world.(nonces := db.world.nonces[msg.from := Nonce(db.world, msg.from) + 1]);
      }
      assert db.world == Started(Prepaid(w, msg), msg);
      var outcome := machine(db.world, msg, gas);
      assert outcome == Ran(w, msg, machine, cip1);
      gas, db.world := outcome.gasLeft, outcome.world;
      var usedGas := SettleBill(outcome, outcome.refund);
      r := Applied(usedGas, outcome.failed);
    }

    /** Hands back what is left and pays the miner. */
    method SettleBill(ghost o: Outcome, refund: uint64) returns (usedGas: uint64)
      requires gas == o.gasLeft <= initialGas == msg.gas && refund == o.refund && db.world == o.world
      requires gp.gas as int + msg.gas as int < TWO_TO_64
      modifies this`gas, gp, db
      ensures usedGas == msg.gas - LeftOver(msg.gas, o) && gp.gas == old(gp.gas) + LeftOver(msg.gas, o)
      ensures db.world == o.world.(balances := Settle(o.world.balances, msg, LeftOver(msg.gas, o) as int,
                                                      usedGas as int,
                                                      baseFee, coinbase))
    {
      RefundGas(o, refund);
      usedGas := initialGas - gas;
      db.world := db.world.(balances := Credit(db.world.balances, coinbase,
                                               usedGas as int * EffectiveTip(msg.tipCap, msg.feeCap, baseFee)));
    }
  }

  // ---------- a block ----------

  /** A transaction as it sits in a block; `signer` is missing if its signature is bad. */
  datatype SignedTx = SignedTx(signer: Option<Address>, to: Option<Address>, nonce: nat, gas: uint64, feeCap: nat,
                               tipCap: nat,
                               value: nat, data: seq<byte>, access: Option<AccessList>)

  function AsMessage(tx: SignedTx, baseFee: nat): (msg: Option<Message>)
    ensures msg.Some? <==> tx.signer.Some?
    ensures msg.Some? ==>
              && SignedTx(Some(msg.value.from), msg.value.to, msg.value.nonce, msg.value.gas, msg.value.feeCap,
                          msg.value.tipCap, msg.value.value, msg.value.data, msg.value.access) == tx
              && Priced(msg.value, baseFee) && FeesChecked(msg.value) && !msg.value.fake
  {
    if tx.signer.None? then None
    else
      Some(Message(tx.signer.value, tx.to, tx.nonce, tx.gas, EffectivePrice(tx.tipCap, tx.feeCap, baseFee), tx.feeCap,
                   tx.tipCap,
                   tx.value, tx.data, tx.access, false, false))
  }

  datatype Receipt = Receipt(failed: bool, cumulativeGasUsed: uint64, gasUsed: uint64)

  /** The gas used by the first `n` receipts. */
  ghost function GasOf(receipts: seq<Receipt>, n: nat): nat
    requires n <= |receipts|
  {
    if n == 0 then 0 else GasOf(receipts, n - 1) + receipts[n - 1].gasUsed as int
  }

  lemma {:induction false} GasOfPrefix(receipts: seq<Receipt>, more: Receipt, n: nat)
    requires n <= |receipts|
    ensures GasOf(receipts + [more], n) == GasOf(receipts, n)
    decreases n
  {
    if n > 0 {
      GasOfPrefix(receipts, more, n - 1);
    }
  }

  /** Receipts carry the running total of the gas used. */
  ghost predicate RunningTotals(receipts: seq<Receipt>) {
    forall i | 0 <= i < |receipts| :: receipts[i].cumulativeGasUsed as int == GasOf(receipts, i + 1)
  }

  lemma TotalsExtend(receipts: seq<Receipt>, more: Receipt)
    requires RunningTotals(receipts)
    requires more.cumulativeGasUsed as int == GasOf(receipts, |receipts|) + more.gasUsed as int
    ensures RunningTotals(receipts + [more])
    ensures GasOf(receipts + [more], |receipts| + 1) == more.cumulativeGasUsed as int
  {
    forall n: nat | n <= |receipts| ensures GasOf(receipts + [more], n) == GasOf(receipts, n) {
      GasOfPrefix(receipts, more, n);
    }
  }

  lemma BurnAdds(sum: int, start: int, used: int, more: int, baseFee: int)
    requires sum == start - used * baseFee
    ensures sum - more * baseFee == start - (used + more) * baseFee
  {
  }

  /** A block half way through: the state, the gas left in the pool and the receipts so far. */
  datatype Progress = Progress(world: World, available: uint64, usedGas: uint64, receipts: seq<Receipt>)

  /** What the transactions of a block have in common. */
  datatype Context = Context(machine: Machine, baseFee: nat, coinbase: Address, cip1: bool)

  /** One more transaction; nothing if it cannot be part of the block. */
  ghost function Advance(s: Progress, tx: SignedTx, c: Context): Option<Progress>
    requires IsFair(c.machine)
  {
    var msg := AsMessage(tx, c.baseFee);
    if msg.None? || Verdict(s.world, s.available, msg.value, c.baseFee, c.cip1).Some? then None
    else
      EffectBurnsBaseFee(s.world, s.available, msg.value, c.machine, c.baseFee, c.coinbase, c.cip1);
      var e := EffectOf(s.world, msg.value, c.machine, c.baseFee, c.coinbase, c.cip1);
      if s.usedGas as int + e.usedGas as int >= TWO_TO_64 then None
      else
        var used := s.usedGas + e.usedGas;
        Some(Progress(e.world, s.available - e.usedGas, used, s.receipts + [Receipt(e.failed, used, e.usedGas)]))
  }

  /** The states a block goes through: each transaction in turn has been applied. */
  ghost predicate Follows(trace: seq<Progress>, txs: seq<SignedTx>, c: Context)
    requires IsFair(c.machine)
  {
    0 < |trace| <= |txs| + 1 && forall k | 0 < k < |trace| :: Follow(trace, txs, c, k)
  }

  ghost predicate Follow(trace: seq<Progress>, txs: seq<SignedTx>, c: Context, k: int)
    requires IsFair(c.machine) && 0 < k < |trace| <= |txs| + 1
  {
    Advance(trace[k - 1], txs[k - 1], c) == Some(trace[k])
  }

  /** The next transaction cannot be applied. */
  ghost predicate Blocked(trace: seq<Progress>, txs: seq<SignedTx>, c: Context)
    requires IsFair(c.machine)
  {
    0 < |trace| <= |txs| && Advance(trace[|trace| - 1], txs[|trace| - 1], c).None?
  }

  lemma FollowsExtend(trace: seq<Progress>, txs: seq<SignedTx>, c: Context, s: Progress)
    requires IsFair(c.machine) && Follows(trace, txs, c) && |trace| <= |txs|
    requires Advance(trace[|trace| - 1], txs[|trace| - 1], c) == Some(s)
    ensures Follows(trace + [s], txs, c)
  {
    var more := trace + [s];
    forall k | 0 < k < |more| ensures Follow(more, txs, c, k) {
      assert k < |trace| ==> Follow(trace, txs, c, k);
    }
  }

  /** The books of a block: gas left and gas used make up the limit, receipts carry the running totals, the
      accounts have lost the base fee of the gas used, and nobody is in debt. */
  ghost predicate Balanced(s: Progress, w: World, gasLimit: uint64, baseFee: nat) {
    && s.available as int + s.usedGas as int == gasLimit as int
    && RunningTotals(s.receipts) && s.usedGas as int == GasOf(s.receipts, |s.receipts|)
    && Sum(s.world.balances) == Sum(w.balances) - s.usedGas as int * baseFee && NoDebt(s.world.balances)
  }

  /** The books after one more message that used `used` gas. */
  lemma BooksAdvance(s: Progress, world: World, used: uint64, total: uint64, failed: bool, w: World, gasLimit: uint64,
                     baseFee: nat)
    requires Balanced(s, w, gasLimit, baseFee) && used <= s.available && total as int == s.usedGas as int + used as int
    requires NoDebt(world.balances) && Sum(world.balances) == Sum(s.world.balances) - used as int * baseFee
    ensures Balanced(Progress(world, s.available - used, total, s.receipts + [Receipt(failed, total, used)]), w,
                     gasLimit, baseFee)
  {
    BurnAdds(Sum(s.world.balances), Sum(w.balances), s.usedGas as int, used as int, baseFee);
    TotalsExtend(s.receipts, Receipt(failed, total, used));
  }

  lemma AdvanceKeepsBalance(s: Progress, tx: SignedTx, w: World, gasLimit: uint64, c: Context)
    requires IsFair(c.machine) && Balanced(s, w, gasLimit, c.baseFee)
    ensures var s' := Advance(s, tx, c);
            s'.Some? ==> Balanced(s'.value, w, gasLimit, c.baseFee) && |s'.value.receipts| == |s.receipts| + 1
  {
    var msg := AsMessage(tx, c.baseFee);
    if msg.Some? && Verdict(s.world, s.available, msg.value, c.baseFee, c.cip1).None? {
      EffectBurnsBaseFee(s.world, s.available, msg.value, c.machine, c.baseFee, c.coinbase, c.cip1);
      EffectLeavesNoDebt(s.world, s.available, msg.value, c.machine, c.baseFee, c.coinbase, c.cip1);
      var e := EffectOf(s.world, msg.value, c.machine, c.baseFee, c.coinbase, c.cip1);
      BooksAdvance(s, e.world, e.usedGas, s.usedGas + e.usedGas, e.failed, w, gasLimit, c.baseFee);
    }
  }

  /** The books balance after every transaction of every block. */
  lemma {:induction false} BlocksBalance(trace: seq<Progress>, txs: seq<SignedTx>, w: World, gasLimit: uint64,
                                         c: Context, k: nat)
    requires IsFair(c.machine) && NoDebt(w.balances) && Follows(trace, txs, c)
    requires trace[0] == Progress(w, gasLimit, 0, []) && k < |trace|
    ensures Balanced(trace[k], w, gasLimit, c.baseFee) && |trace[k].receipts| == k
    decreases k
  {
    if k > 0 {
      BlocksBalance(trace, txs, w, gasLimit, c, k - 1);
      AdvanceKeepsBalance(trace[k - 1], txs[k - 1], w, gasLimit, c);
      assert Follow(trace, txs, c, k);
    }
  }

  /** Applies one transaction of a block and writes its receipt. */
  method ApplyTransaction(tx: SignedTx, gp: GasPool, db: StateDB, usedGas: uint64, c: Context,
                          ghost receipts: seq<Receipt>)
    returns (receipt: Option<Receipt>)
    requires IsFair(c.machine) && |tx.data| < TWO_TO_64 && usedGas as int + gp.gas as int < TWO_TO_64
    modifies gp, db
    ensures match Advance(Progress(old(db.world), old(gp.gas), usedGas, receipts), tx, c)
            case None => receipt.None?
            case Some(s) => receipt.Some? && s == Progress(db.world, gp.gas, receipt.value.cumulativeGasUsed,
                                                           receipts + [receipt.value])
  {
    var msg := AsMessage(tx, c.baseFee);
    if msg.None? {
      return None;
    }
    var st := new StateTransition(msg.value, gp, db, c.baseFee, c.coinbase, c.cip1);
    var result := st.TransitionDb(c.machine);
    if result.Rejected? {
      return None;
    }
    receipt := Some(Receipt(result.failed, usedGas + result.usedGas, result.usedGas));
  }

  /** The step of the block loop, with the states gone through so far. */
  method ProcessNext(txs: seq<SignedTx>, i: nat, gasLimit: uint64, gp: GasPool, db: StateDB, usedGas: uint64,
                     c: Context,
                     ghost receipts: seq<Receipt>, ghost trace: seq<Progress>) returns (receipt: Option<Receipt>)
    requires IsFair(c.machine) && i < |txs| && |txs[i].data| < TWO_TO_64
    requires Follows(trace, txs, c) && |trace| == i + 1 && trace[i] == Progress(db.world, gp.gas, usedGas, receipts)
    requires trace[0].available == gasLimit && trace[0].usedGas == 0
    requires trace[0].receipts == [] && NoDebt(trace[0].world.balances)
    modifies gp, db
    ensures receipt.None? ==> Blocked(trace, txs, c)
    ensures receipt.Some? ==>
              Follows(trace + [Progress(db.world, gp.gas, receipt.value.cumulativeGasUsed, receipts + [receipt.value])], txs, c)
  {
    BlocksBalance(trace, txs, trace[0].world, gasLimit, c, i);
    receipt := ApplyTransaction(txs[i], gp, db, usedGas, c, receipts);
    if receipt.Some? {
      FollowsExtend(trace, txs, c,
                    Progress(db.world, gp.gas, receipt.value.cumulativeGasUsed, receipts + [receipt.value]));
    }
  }

  /** Processes a block's transactions in order, stopping at the first that cannot be applied. */
  method Process(txs: seq<SignedTx>, gasLimit: uint64, c: Context, db: StateDB)
    returns (ok: bool, receipts: seq<Receipt>, usedGas: uint64, ghost trace: seq<Progress>)
    requires IsFair(c.machine) && NoDebt(db.world.balances) && forall tx <- txs :: |tx.data| < TWO_TO_64
    modifies db
    ensures Follows(trace, txs, c) && trace[0] == Progress(old(db.world), gasLimit, 0, [])
    ensures if ok
            then |trace| == |txs| + 1 && trace[|txs|] == Progress(db.world, trace[|txs|].available, usedGas, receipts)
            else Blocked(trace, txs, c)
  {
    receipts, usedGas := [], 0;
    var gp := new GasPool(gasLimit);
    trace := [Progress(db.world, gasLimit, 0, [])];
    for i := 0 to |txs|
      invariant Follows(trace, txs, c) && |trace| == i + 1 && trace[0] == Progress(old(db.world), gasLimit, 0, [])
      invariant trace[i] == Progress(db.world, gp.gas, usedGas, receipts)
    {
      var receipt := ProcessNext(txs, i, gasLimit, gp, db, usedGas, c, receipts, trace);
      if receipt.None? {
        return false, [], 0, trace;
      }
      usedGas := receipt.value.cumulativeGasUsed;
      receipts := receipts + [receipt.value];
      trace := trace + [Progress(db.world, gp.gas, usedGas, receipts)];
    }
    ok := true;
  }
}
