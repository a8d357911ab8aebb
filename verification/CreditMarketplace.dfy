/** The marketplace contract. */
module CreditMarketplace {
  import opened Transactions
  import opened Lists
  import opened Banks
  import Spec = MarketSpec

  /** `bank` holds the balances kept by the token contracts the market calls; the
  host rolls them back together with the market's own storage. */
  class Market {
    const self: Address
    var store: Spec.Storage
    var bank: Bank

    /** A market starts without orders, under the maximum fee. */
    constructor (self: Address, admin: Address, feeBps: nat, feeRecipient: Address, bank: Bank)
      requires feeBps <= Spec.MAX_FEE_BPS
      ensures this.self == self && this.bank == bank
      ensures Committed(store) == Spec.Init(admin, feeBps, feeRecipient)
      ensures store.orderCount == 0 && store.orders == map[] && store.makerOrders == map[]
    {
      this.self, this.bank := self, bank;
      store := Spec.Storage(admin, false, feeBps, feeRecipient, 0, map[], map[]);
    }

    ghost function System(): Spec.System
      reads this
    {
      Spec.System(store, bank)
    }

    method TokenTransfer(token: Address, from: Address, to: Address, amount: int, permit: bool) returns (r: Txn<()>)
      modifies this`bank
      ensures Settled(r, Pay(old(bank), token, from, to, amount, permit), old(bank), bank)
    {
      if !permit {
        return Reverted;
      }
      :- Require(amount <= Holding(bank, token, from));
      bank := bank[(token, from) := Holding(bank, token, from) - amount];
      bank := bank[(token, to) := Holding(bank, token, to) + amount];
      r := Committed(());
    }

    method TransferIfPositive(token: Address, from: Address, to: Address, amount: int, permit: bool) returns (r: Txn<()>)
      modifies this`bank
      ensures Settled(r, PayIfPositive(old(bank), token, from, to, amount, permit), old(bank), bank)
    {
      r := Committed(());
      if amount > 0 {
        r := TokenTransfer(token, from, to, amount, permit);
      }
    }

    method RemoveMakerOrder(maker: Address, id: nat)
      modifies this`store
      ensures store == Spec.RemoveMakerOrder(old(store), maker, id)
    {
      var updated := Remove(Spec.OpenOrders(store, maker), id);
      store := store.(makerOrders := store.makerOrders[maker := updated]);
    }

    method SaveOrder(o: Spec.Order, id: nat)
      modifies this`store
      ensures store == old(store).(orders := old(store).orders[id := o])
    {
      store := store.(orders := store.orders[id := o]);
    }

    method CreateOrder(side: Spec.Side, maker: Address, credit: Address, payment: Address, amount: int, price: int,
                       now: nat, permit: bool) returns (r: Txn<nat>)
      modifies this
      ensures Answered(r, Spec.CreateOrder(old(System()), self, side, maker, credit, payment, amount, price, now, permit),
                       old(System()), System())
    {
      if store.paused {
        return Reverted;
      }
      :- Require(amount > 0 && price > 0);
      var cost :- Spec.CalculateCost(amount, price);
      var savedStore, savedBank := store, bank;
      var escrow := if side.Sell? then (credit, amount) else (payment, cost);
      var _ :- TokenTransfer(escrow.0, maker, self, escrow.1, permit);
      var id := store.orderCount + 1;
      store := store.(orderCount := id);
      SaveOrder(Spec.Order(id, maker, side, credit, payment, amount, 0, price, now, Spec.Open), id);
      var orders := Spec.OpenOrders(store, maker);
      if |orders| >= Spec.MAX_OPEN_ORDERS {
        store, bank := savedStore, savedBank;
        return Reverted;
      }
      store := store.(makerOrders := store.makerOrders[maker := orders + [id]]);
      r := Committed(id);
    }

    method SettleFill(taker: Address, o: Spec.Order, amount: int, payout: int, fee: int, permit: bool) returns (r: Txn<()>)
      modifies this`bank
      ensures Settled(r, Spec.SettleFill(store, old(bank), self, taker, o, amount, payout, fee, permit), old(bank), bank)
    {
      var saved := bank;
      match o.side {
        case Sell =>
          r := TransferIfPositive(o.payment, taker, o.maker, payout, permit);
          if r.Committed? {
            r := TransferIfPositive(o.payment, taker, store.feeRecipient, fee, permit);
          }
          if r.Committed? {
            r := TokenTransfer(o.credit, self, taker, amount, permit);
          }
        case Buy =>
          r := TokenTransfer(o.credit, taker, o.maker, amount, permit);
          if r.Committed? {
            r := TransferIfPositive(o.payment, self, taker, payout, permit);
          }
          if r.Committed? {
            r := TransferIfPositive(o.payment, self, store.feeRecipient, fee, permit);
          }
      }
      if r.Reverted? {
        bank := saved;
      }
    }

    method InternalFillOrder(taker: Address, id: nat, amount: int, permit: bool) returns (r: Txn<()>)
      modifies this
      ensures Settled(r, Spec.FillOne(old(System()), self, taker, id, amount, permit), old(System()), System())
    {
      if amount <= 0 {
        return Reverted;
      }
      :- Require(id in store.orders);
      var o := store.orders[id];
      :- Require(o.status.Open? || o.status.PartiallyFilled?);
      :- Require(amount <= o.amount - o.filled);
      var cost :- Spec.CalculateCost(amount, o.price);
      var fee :- Spec.CalculateFee(cost, store.feeBps);
      var _ :- SettleFill(taker, o, amount, cost - fee, fee, permit);
      StoreFill(o, id, amount);
      r := Committed(());
    }

    method StoreFill(order: Spec.Order, id: nat, amount: int)
      modifies this
      ensures bank == old(bank)
      ensures
        var filled := Spec.AfterFill(order, amount);
        var kept := if filled.status.Filled? then Spec.RemoveMakerOrder(old(store), order.maker, id) else old(store);
        store == kept.(orders := kept.orders[id := filled])
    {
      var o := order.(filled := order.filled + amount);
      if o.filled == o.amount {
        o := o.(status := Spec.Filled);
        RemoveMakerOrder(o.maker, id);
      } else {
        o := o.(status := Spec.PartiallyFilled);
      }
      SaveOrder(o, id);
    }

    method FillOrder(taker: Address, id: nat, amount: int, permit: bool) returns (r: Txn<()>)
      modifies this
      ensures Settled(r, Spec.FillOrder(old(System()), self, taker, id, amount, permit), old(System()), System())
    {
      if store.paused {
        return Reverted;
      }
      r := InternalFillOrder(taker, id, amount, permit);
    }

    /** One failing fill undoes the whole batch. */
    method BatchFillOrders(taker: Address, ids: seq<nat>, amounts: seq<int>, permit: bool) returns (r: Txn<()>)
      modifies this
      ensures Settled(r, Spec.BatchFill(old(System()), self, taker, ids, amounts, permit), old(System()), System())
    {
      if store.paused {
        return Reverted;
      }
      :- Require(|ids| == |amounts|);
      :- Require(ids != []);
      var savedStore, savedBank := store, bank;
      for i := 0 to |ids|
        invariant Spec.FillEach(System(), self, taker, ids[i..], amounts[i..], permit)
               == Spec.FillEach(old(System()), self, taker, ids, amounts, permit)
      {
        assert ids[i..][1..] == ids[i + 1..] && amounts[i..][1..] == amounts[i + 1..];
        var filled := InternalFillOrder(taker, ids[i], amounts[i], permit);
        if filled.Reverted? {
          store, bank := savedStore, savedBank;
          return Reverted;
        }
      }
      r := Committed(());
    }

    method CancelOrder(maker: Address, id: nat, permit: bool) returns (r: Txn<()>)
      modifies this
      ensures Settled(r, Spec.CancelOrder(old(System()), self, maker, id, permit), old(System()), System())
    {
      if id !in store.orders {
        return Reverted;
      }
      var o := store.orders[id];
      :- Require(o.maker == maker);
      :- Require(o.status.Open? || o.status.PartiallyFilled?);
      var remaining := o.amount - o.filled;
      match o.side {
        case Sell =>
          var _ :- TransferIfPositive(o.credit, self, maker, remaining, permit);
        case Buy =>
          var refund :- Spec.CalculateCost(remaining, o.price);
          var _ :- TransferIfPositive(o.payment, self, maker, refund, permit);
      }
      SaveOrder(o.(status := Spec.Cancelled), id);
      RemoveMakerOrder(maker, id);
      r := Committed(());
    }
  }
}
