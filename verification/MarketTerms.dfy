/** From the calls to the orders: the terms each was placed on, and whose doing a
change of the market is. */
module MarketTerms {
  import opened Transactions
  import opened Banks
  import opened MarketSpec
  import opened MarketSafety

  predicate Places(s: System, self: Address, c: Call, id: nat) {
    c.CallCreate? && Step(s, self, c).Committed? && id == s.store.orderCount + 1
  }

  /** The call that placed the order. */
  function PlacedBy(s: System, self: Address, calls: seq<Call>, id: nat): Option<Call> {
    if calls == [] then None
    else
      var before, c := Run(s, self, calls[..|calls| - 1]), calls[|calls| - 1];
      if Places(before, self, c, id) then Some(c) else PlacedBy(s, self, calls[..|calls| - 1], id)
  }

  predicate HasTerms(o: Order, id: nat, c: Call) {
    && c.CallCreate?
    && o.id == id && o.maker == c.maker && o.side == c.side && o.credit == c.credit && o.payment == c.payment
    && o.amount == c.amount && o.price == c.price && o.createdAt == c.now
  }

  ghost predicate Placed(s: Storage, id: nat, placing: Option<Call>) {
    && (id in s.orders <==> placing.Some?)
    && (id in s.orders ==> HasTerms(s.orders[id], id, placing.value))
  }

  lemma {:induction false} FillEachKeepsOrders(s: System, self: Address, taker: Address, ids: seq<nat>, amounts: seq<int>, permit: bool, id: nat)
    requires |ids| == |amounts| && FillEach(s, self, taker, ids, amounts, permit).Committed?
    ensures id in FillEach(s, self, taker, ids, amounts, permit).value.store.orders <==> id in s.store.orders
    ensures FillEach(s, self, taker, ids, amounts, permit).value.store.orderCount == s.store.orderCount
    decreases |ids|
  {
    if ids != [] {
      FillEachKeepsOrders(FillOne(s, self, taker, ids[0], amounts[0], permit).value, self, taker, ids[1..], amounts[1..], permit, id);
    }
  }

  lemma CreateKeepsTerms(s: System, self: Address, c: Call, id: nat, placing: Option<Call>)
    requires Proper(s.store, self) && Placed(s.store, id, placing) && c.CallCreate? && Step(s, self, c).Committed?
    ensures Placed(Next(s, self, c).store, id, if Places(s, self, c, id) then Some(c) else placing)
  {
  }

  lemma OtherKeepsOrders(s: System, self: Address, c: Call, id: nat)
    requires !c.CallCreate?
    ensures id in Next(s, self, c).store.orders <==> id in s.store.orders
  {
    if c.CallBatchFill? && Step(s, self, c).Committed? {
      FillEachKeepsOrders(s, self, c.taker, c.ids, c.amounts, c.permit, id);
    }
  }

  lemma StepKeepsTerms(s: System, self: Address, c: Call, id: nat, placing: Option<Call>)
    requires Proper(s.store, self) && Placed(s.store, id, placing)
    ensures Placed(Next(s, self, c).store, id, if Places(s, self, c, id) then Some(c) else placing)
  {
    if c.CallCreate? && Step(s, self, c).Committed? {
      CreateKeepsTerms(s, self, c, id, placing);
    } else if Step(s, self, c).Committed? {
      OtherKeepsOrders(s, self, c, id);
      if id in s.store.orders {
        StepFilled(s, self, c, id);
      }
    }
  }

  /** In every run of a new market each order stands on the terms it was placed on,
  and no order stands without having been placed. */
  lemma {:induction false} OrdersHaveTheirTerms(admin: Address, feeBps: nat, feeRecipient: Address, bank: Bank, self: Address,
                                                calls: seq<Call>, id: nat)
    requires Init(admin, feeBps, feeRecipient).Committed? && NoDebts(bank)
    requires forall i :: 0 <= i < |calls| ==> Outsider(calls[i], self)
    ensures
      var d := System(Init(admin, feeBps, feeRecipient).value, bank);
      Placed(Run(d, self, calls).store, id, PlacedBy(d, self, calls, id))
  {
    if calls != [] {
      var d, front := System(Init(admin, feeBps, feeRecipient).value, bank), calls[..|calls| - 1];
      OrdersHaveTheirTerms(admin, feeBps, feeRecipient, bank, self, front, id);
      FreshMarketIsSolvent(admin, feeBps, feeRecipient, bank, self);
      EscrowSolvency(d, self, front);
      StepKeepsTerms(Run(d, self, front), self, calls[|calls| - 1], id, PlacedBy(d, self, front, id));
    }
  }

  // ---- Whose doing ----

  /** Orders are placed and filled only while the market is not paused; fee and
  recipient change by the admin, to no more than ten per cent; and only the admin
  pauses. */
  predicate ActsByRight(s: Storage, c: Call, after: Storage) {
    && ((c.CallCreate? || c.CallFill? || c.CallBatchFill?) && after != s ==> !s.paused)
    && (after.feeBps != s.feeBps || after.feeRecipient != s.feeRecipient ==>
          c.CallSetFee? && c.admin == s.admin && after.feeBps <= 1_000)
    && (after.paused != s.paused ==> c.CallSetPaused? && c.caller == s.admin)
    && after.admin == s.admin
  }

  lemma {:induction false} FillEachKeepsSettings(s: System, self: Address, taker: Address, ids: seq<nat>, amounts: seq<int>, permit: bool)
    requires |ids| == |amounts| && FillEach(s, self, taker, ids, amounts, permit).Committed?
    ensures
      var t := FillEach(s, self, taker, ids, amounts, permit).value.store;
      t.feeBps == s.store.feeBps && t.feeRecipient == s.store.feeRecipient && t.paused == s.store.paused && t.admin == s.store.admin
    decreases |ids|
  {
    if ids != [] {
      FillEachKeepsSettings(FillOne(s, self, taker, ids[0], amounts[0], permit).value, self, taker, ids[1..], amounts[1..], permit);
    }
  }

  lemma MarketChangesByRight(s: System, self: Address, c: Call)
    ensures ActsByRight(s.store, c, Next(s, self, c).store)
  {
    if c.CallBatchFill? && Step(s, self, c).Committed? {
      FillEachKeepsSettings(s, self, c.taker, c.ids, c.amounts, c.permit);
    }
  }

  /** A batch goes through exactly if it is not empty, names an amount for each order,
  and its fills go through one after the other. */
  lemma BatchGoesThroughExactly(s: System, self: Address, c: Call)
    requires c.CallBatchFill?
    ensures Step(s, self, c).Committed?
            <==> !s.store.paused && 0 < |c.ids| == |c.amounts| && FillEach(s, self, c.taker, c.ids, c.amounts, c.permit).Committed?
  {
  }
}
