/** The marketplace: its orders, the token ledgers it pays from, and its calls. */
module MarketSpec {
  import opened Numeric
  import opened Transactions
  import opened Lists
  import opened Banks

  const PRECISION: int := 10_000_000
  const MAX_OPEN_ORDERS: nat := 50
  const MAX_FEE_BPS: nat := 1_000
  const BPS: int := 10_000

  datatype Side = Buy | Sell
  datatype Status = Open | Filled | PartiallyFilled | Cancelled

  datatype Order = Order(id: nat, maker: Address, side: Side, credit: Address, payment: Address,
                         amount: int, filled: int, price: int, createdAt: nat, status: Status)
  {
    predicate Live() {
      status.Open? || status.PartiallyFilled?
    }

    function Remaining(): int {
      amount - filled
    }
  }

  datatype Storage = Storage(admin: Address, paused: bool, feeBps: nat, feeRecipient: Address,
                             orderCount: nat, orders: map<nat, Order>, makerOrders: map<Address, seq<nat>>)

  datatype System = System(store: Storage, bank: Bank)

  function Init(admin: Address, feeBps: nat, feeRecipient: Address): Txn<Storage> {
    if feeBps > MAX_FEE_BPS then Reverted
    else
      Committed(Storage(admin, false, feeBps, feeRecipient, 0, map[], map[]))
  }

  /** Reverts on a product that overflows and on a cost that rounds to nothing. */
  function CalculateCost(amount: int, price: int): Txn<int> {
    if amount <= 0 || price <= 0 then Reverted
    else
      var numerator :- Checked(amount * price);
      :- Require(numerator / PRECISION > 0);
      Committed(numerator / PRECISION)
  }

  function CalculateFee(cost: int, feeBps: nat): Txn<int> {
    if feeBps == 0 then Committed(0)
    else
      var numerator :- Checked(cost * feeBps);
      Committed(TruncDiv(numerator, BPS))
  }

  function OpenOrders(s: Storage, maker: Address): seq<nat> {
    if maker in s.makerOrders then s.makerOrders[maker] else []
  }

  function RemoveMakerOrder(s: Storage, maker: Address, id: nat): Storage {
    s.(makerOrders := s.makerOrders[maker := Without(OpenOrders(s, maker), id)])
  }

  /** Takes the escrow, then stores the order under the next id. */
  function CreateOrder(s: System, self: Address, side: Side, maker: Address, credit: Address, payment: Address,
                       amount: int, price: int, now: nat, permit: bool): Txn<(System, nat)>
  {
    if s.store.paused then Reverted
    else
      :- Require(amount > 0 && price > 0);
      var cost :- CalculateCost(amount, price);
      var bank :- if side.Sell? then Pay(s.bank, credit, maker, self, amount, permit)
                  else Pay(s.bank, payment, maker, self, cost, permit);
      var id := s.store.orderCount + 1;
      :- Require(|OpenOrders(s.store, maker)| < MAX_OPEN_ORDERS);
      var order := Order(id, maker, side, credit, payment, amount, 0, price, now, Open);
      Committed((System(s.store.(orderCount := id, orders := s.store.orders[id := order],
                                 makerOrders := s.store.makerOrders[maker := OpenOrders(s.store, maker) + [id]]), bank), id))
  }

  /** The three payments of a fill. */
  function SettleFill(s: Storage, bank: Bank, self: Address, taker: Address, o: Order, amount: int,
                      payout: int, fee: int, permit: bool): Txn<Bank>
  {
    match o.side
    case Sell =>
      var b1 :- PayIfPositive(bank, o.payment, taker, o.maker, payout, permit);
      var b2 :- PayIfPositive(b1, o.payment, taker, s.feeRecipient, fee, permit);
      Pay(b2, o.credit, self, taker, amount, permit)
    case Buy =>
      var b1 :- Pay(bank, o.credit, taker, o.maker, amount, permit);
      var b2 :- PayIfPositive(b1, o.payment, self, taker, payout, permit);
      PayIfPositive(b2, o.payment, self, s.feeRecipient, fee, permit)
  }

  function AfterFill(o: Order, amount: int): Order {
    o.(filled := o.filled + amount,
       status := if o.filled + amount == o.amount then Filled else PartiallyFilled)
  }

  function FillOne(s: System, self: Address, taker: Address, id: nat, amount: int, permit: bool): Txn<System> {
    if amount <= 0 then Reverted
    else
      :- Require(id in s.store.orders);
      var o := s.store.orders[id];
      :- Require(o.Live());
      :- Require(amount <= o.Remaining());
      var cost :- CalculateCost(amount, o.price);
      var fee :- CalculateFee(cost, s.store.feeBps);
      var bank :- SettleFill(s.store, s.bank, self, taker, o, amount, cost - fee, fee, permit);
      var filled := AfterFill(o, amount);
      var store := if filled.status.Filled? then RemoveMakerOrder(s.store, o.maker, id) else s.store;
      Committed(System(store.(orders := store.orders[id := filled]), bank))
  }

  function FillOrder(s: System, self: Address, taker: Address, id: nat, amount: int, permit: bool): Txn<System> {
    if s.store.paused then Reverted
    else
      FillOne(s, self, taker, id, amount, permit)
  }

  function FillEach(s: System, self: Address, taker: Address, ids: seq<nat>, amounts: seq<int>, permit: bool): Txn<System>
    requires |ids| == |amounts|
    decreases |ids|
  {
    if ids == [] then Committed(s)
    else
      var t :- FillOne(s, self, taker, ids[0], amounts[0], permit);
      FillEach(t, self, taker, ids[1..], amounts[1..], permit)
  }

  function BatchFill(s: System, self: Address, taker: Address, ids: seq<nat>, amounts: seq<int>, permit: bool): Txn<System> {
    if s.store.paused then Reverted
    else
      :- Require(|ids| == |amounts|);
      :- Require(ids != []);
      FillEach(s, self, taker, ids, amounts, permit)
  }

  /** A pause does not stop cancellation; a refund that rounds to nothing does. */
  function CancelOrder(s: System, self: Address, maker: Address, id: nat, permit: bool): Txn<System> {
    if id !in s.store.orders then Reverted
    else
      var o := s.store.orders[id];
      :- Require(o.maker == maker);
      :- Require(o.Live());
      var refund :- if o.side.Sell? then Committed(o.Remaining()) else CalculateCost(o.Remaining(), o.price);
      var bank :- PayIfPositive(s.bank, if o.side.Sell? then o.credit else o.payment, self, maker, refund, permit);
      var store := RemoveMakerOrder(s.store, maker, id);
      Committed(System(store.(orders := store.orders[id := o.(status := Cancelled)]), bank))
  }

  function SetFee(s: Storage, admin: Address, feeBps: nat, feeRecipient: Address): Txn<Storage> {
    if admin != s.admin then Reverted
    else
      :- Require(feeBps <= MAX_FEE_BPS);
      Committed(s.(feeBps := feeBps, feeRecipient := feeRecipient))
  }

  function SetPaused(s: Storage, caller: Address, paused: bool): Txn<Storage> {
    if caller != s.admin then Reverted
    else
      Committed(s.(paused := paused))
  }

  // ---- Runs ----

  datatype Call =
    | CallCreate(side: Side, maker: Address, credit: Address, payment: Address, amount: int, price: int, now: nat, permit: bool)
    | CallFill(taker: Address, id: nat, amount: int, permit: bool)
    | CallBatchFill(taker: Address, ids: seq<nat>, amounts: seq<int>, permit: bool)
    | CallCancel(maker: Address, id: nat, permit: bool)
    | CallSetFee(admin: Address, feeBps: nat, feeRecipient: Address)
    | CallSetPaused(caller: Address, paused: bool)
      /** A transfer between token holders that does not involve the market. */
    | CallTransfer(token: Address, from: Address, to: Address, amount: int)

  function Step(s: System, self: Address, c: Call): Txn<System> {
    match c
    case CallCreate(side, maker, credit, payment, amount, price, now, permit) =>
      var r :- CreateOrder(s, self, side, maker, credit, payment, amount, price, now, permit);
      Committed(r.0)
    case CallFill(taker, id, amount, permit) => FillOrder(s, self, taker, id, amount, permit)
    case CallBatchFill(taker, ids, amounts, permit) => BatchFill(s, self, taker, ids, amounts, permit)
    case CallCancel(maker, id, permit) => CancelOrder(s, self, maker, id, permit)
    case CallSetFee(admin, feeBps, feeRecipient) =>
      var store :- SetFee(s.store, admin, feeBps, feeRecipient);
      Committed(s.(store := store))
    case CallSetPaused(caller, paused) =>
      var store :- SetPaused(s.store, caller, paused);
      Committed(s.(store := store))
    case CallTransfer(token, from, to, amount) =>
      var bank :- PayIfPositive(s.bank, token, from, to, amount, true);
      Committed(s.(bank := bank))
  }

  function Next(s: System, self: Address, c: Call): System {
    var r := Step(s, self, c);
    if r.Committed? then r.value else s
  }

  function Run(s: System, self: Address, calls: seq<Call>): System {
    if calls == [] then s else Next(Run(s, self, calls[..|calls| - 1]), self, calls[|calls| - 1])
  }
}
