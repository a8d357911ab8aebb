/** Escrow solvency, rounding dust and order bookkeeping over every run. */
module MarketSafety {
  import opened Numeric
  import opened Transactions
  import opened Sums
  import opened Lists
  import opened Banks
  import opened MarketSpec

  // ---- What the market owes ----

  function Worth(amount: int, price: int): int {
    amount * price / PRECISION
  }

  /** What an order still has in escrow, in units of `token`. */
  function Liability(o: Order, token: Address): int {
    if !o.Live() then 0
    else if o.side.Sell? then (if o.credit == token then o.Remaining() else 0)
    else (if o.payment == token then Worth(o.Remaining(), o.price) else 0)
  }

  function Liabilities(s: Storage, token: Address): map<nat, int> {
    map id | id in s.orders :: Liability(s.orders[id], token)
  }

  ghost function Owed(s: Storage, token: Address): int {
    Total(Liabilities(s, token))
  }

  ghost predicate ProperOrder(o: Order, self: Address) {
    && o.maker != self
    && 0 <= o.filled <= o.amount && 0 < o.amount && 0 < o.price
    && IsI128(o.amount * o.price) && o.amount <= I128_MAX
    && (o.Live() ==> o.filled < o.amount)
    && (o.status.Open? ==> o.filled == 0)
    && (o.status.Filled? ==> o.filled == o.amount)
  }

  ghost predicate Proper(s: Storage, self: Address) {
    && (forall id :: id in s.orders <==> 1 <= id <= s.orderCount)
    && (forall id :: id in s.orders ==> ProperOrder(s.orders[id], self) && s.orders[id].id == id)
    && s.feeBps <= MAX_FEE_BPS
  }

  /** As far as order `id` is concerned. */
  ghost predicate ProperAt(s: Storage, self: Address, id: nat) {
    (id in s.orders ==> ProperOrder(s.orders[id], self)) && s.feeBps <= MAX_FEE_BPS
  }

  /** The market holds, of every token, at least what its open orders are owed. */
  ghost predicate Solvent(s: System, self: Address) {
    && Proper(s.store, self)
    && forall token :: Owed(s.store, token) <= Holding(s.bank, token, self)
  }

  /** The market never signs as a maker, a taker or a sender of its own accord. */
  predicate Outsider(c: Call, self: Address) {
    match c
    case CallCreate(side, maker, credit, payment, amount, price, now, permit) => maker != self
    case CallFill(taker, id, amount, permit) => taker != self
    case CallBatchFill(taker, ids, amounts, permit) => taker != self
    case CallTransfer(token, from, to, amount) => from != self
    case _ => true
  }

  lemma OwedUpdate(s: Storage, id: nat, o: Order, token: Address)
    ensures Owed(s.(orders := s.orders[id := o]), token)
         == Owed(s, token) - (if id in s.orders then Liability(s.orders[id], token) else 0) + Liability(o, token)
  {
    var m := Liabilities(s, token);
    assert Liabilities(s.(orders := s.orders[id := o]), token) == m[id := Liability(o, token)];
    TotalUpdate(m, id, Liability(o, token));
  }

  lemma LiabilityNonNegative(o: Order, self: Address, token: Address)
    requires ProperOrder(o, self)
    ensures 0 <= Liability(o, token)
  {
    MulMono2(0, o.Remaining(), 0, o.price);
    DivMono(0, o.Remaining() * o.price, PRECISION);
  }

  /** No single open order is owed more than the market holds. */
  lemma LiabilityIsCovered(s: System, self: Address, id: nat, token: Address)
    requires Solvent(s, self) && id in s.store.orders
    ensures 0 <= Liability(s.store.orders[id], token) <= Holding(s.bank, token, self)
  {
    forall j | j in s.store.orders ensures 0 <= Liability(s.store.orders[j], token) {
      LiabilityNonNegative(s.store.orders[j], self, token);
    }
    TotalAtLeast(Liabilities(s.store, token), id);
    assert Owed(s.store, token) <= Holding(s.bank, token, self);
  }

  /** Rounding a fill and the rest separately never exceeds rounding once. */
  lemma WorthSplit(a: int, b: int, price: int)
    ensures Worth(a, price) + Worth(b, price) <= Worth(a + b, price) <= Worth(a, price) + Worth(b, price) + 1
  {
    assert (a + b) * price == a * price + b * price;
    FloorSplit(a * price, b * price, PRECISION);
  }

  lemma CostFits(amount: int, whole: int, price: int)
    requires 0 < amount <= whole && 0 < price && IsI128(whole * price)
    ensures CalculateCost(amount, price).Committed? <==> amount * price >= PRECISION
    ensures CalculateCost(amount, price).Committed? ==> CalculateCost(amount, price).value == Worth(amount, price)
  {
    MulMono2(0, amount, 0, price);
    MulMono(amount, whole, price);
    FloorAtLeast(amount * price, PRECISION, 1);
  }

  lemma FeeFits(cost: int, feeBps: nat)
    requires 0 < cost <= I128_MAX / PRECISION && feeBps <= MAX_FEE_BPS
    ensures CalculateFee(cost, feeBps).Committed?
    ensures 0 <= CalculateFee(cost, feeBps).value <= cost
  {
    MulMono2(0, feeBps, cost, cost);
    MulMono(feeBps, BPS, cost);
    MulMono2(feeBps, MAX_FEE_BPS, cost, I128_MAX / PRECISION);
    DivMono(0, cost * feeBps, BPS);
    DivMono(cost * feeBps, 0 + cost * BPS, BPS);
    DivShift(0, BPS, cost);
  }

  lemma WorthBounded(amount: int, price: int)
    requires 0 < amount * price && IsI128(amount * price)
    ensures 0 <= Worth(amount, price) <= I128_MAX / PRECISION
  {
    DivMono(0, amount * price, PRECISION);
    DivMono(amount * price, I128_MAX, PRECISION);
  }

  /** The cost is the product in units of ten million, rounded down, and there is one
  exactly if that is at least one unit and fits. */
  lemma CostRounds(amount: int, price: int)
    ensures CalculateCost(amount, price).Committed?
            <==> 0 < amount && 0 < price && 10_000_000 <= amount * price <= I128_MAX
    ensures
      var r := CalculateCost(amount, price);
      r.Committed? ==> 10_000_000 * r.value <= amount * price < 10_000_000 * r.value + 10_000_000
  {
    if 0 < amount && 0 < price {
      MulMono2(1, amount, 1, price);
      FloorAtLeast(amount * price, PRECISION, 1);
      DivBounds(amount * price, PRECISION);
    }
  }

  /** The fee is that many basis points of the cost, rounded down. */
  lemma FeeRounds(cost: int, feeBps: nat)
    requires 0 <= cost && CalculateFee(cost, feeBps).Committed?
    ensures 10_000 * CalculateFee(cost, feeBps).value <= cost * feeBps < 10_000 * CalculateFee(cost, feeBps).value + 10_000
  {
    MulMono2(0, cost, 0, feeBps);
    DivBounds(cost * feeBps, BPS);
  }

  // ---- One fill ----

  /** What a fill is to change in the holdings of `who` in token `k`: the payer
  gives the cost, the payee and the fee recipient share it, and the credits go
  from whoever owes them to whoever buys them. */
  function FillDelta(s: Storage, o: Order, self: Address, taker: Address, amount: int, fee: int, k: Address, who: Address): int {
    var cost := Worth(amount, o.price);
    var payer, payee := if o.side.Sell? then taker else self, if o.side.Sell? then o.maker else taker;
    var giver, buyer := if o.side.Sell? then self else taker, if o.side.Sell? then taker else o.maker;
    (if k != o.payment then 0
     else (if who == payee then cost - fee else 0) + (if who == s.feeRecipient then fee else 0) - (if who == payer then cost else 0))
    + (if k != o.credit then 0
       else (if who == buyer then amount else 0) - (if who == giver then amount else 0))
  }

  function FeeOf(s: Storage, o: Order, amount: int): int {
    var fee := CalculateFee(Worth(amount, o.price), s.feeBps);
    if fee.Committed? then fee.value else 0
  }

  /** A committed fill charges the floored cost of the amount, splits it into
  payout and fee, and settles just that. */
  lemma FillSettles(s: System, self: Address, taker: Address, id: nat, amount: int, permit: bool)
    requires ProperAt(s.store, self, id)
    requires FillOne(s, self, taker, id, amount, permit).Committed?
    ensures id in s.store.orders && 0 < amount <= s.store.orders[id].Remaining()
    ensures
      var o := s.store.orders[id];
      var cost, fee := Worth(amount, o.price), FeeOf(s.store, o, amount);
      && 0 <= fee <= cost
      && 10_000_000 * cost <= amount * o.price < 10_000_000 * cost + 10_000_000
      && 10_000 * fee <= cost * s.store.feeBps < 10_000 * fee + 10_000
      && SettleFill(s.store, s.bank, self, taker, o, amount, cost - fee, fee, permit)
         == Committed(FillOne(s, self, taker, id, amount, permit).value.bank)
  {
    var o := s.store.orders[id];
    var cost := CalculateCost(amount, o.price).value;
    assert cost == Worth(amount, o.price);
    WorthBounded(amount, o.price);
    CostRounds(amount, o.price);
    FeeFits(cost, s.store.feeBps);
    FeeRounds(cost, s.store.feeBps);
  }

  /** A committed fill changes every account by exactly that, even where maker,
  taker, market and fee recipient coincide: payout and fee add up to the cost,
  which is the price of the amount, and the fee is the configured share of it,
  both rounded down. */
  lemma FillMovesExactly(s: System, self: Address, taker: Address, id: nat, amount: int, permit: bool, k: Address, who: Address)
    requires ProperAt(s.store, self, id)
    requires FillOne(s, self, taker, id, amount, permit).Committed?
    ensures id in s.store.orders
    ensures
      var o := s.store.orders[id];
      var cost, fee := Worth(amount, o.price), FeeOf(s.store, o, amount);
      && 0 <= fee <= cost
      && 10_000_000 * cost <= amount * o.price < 10_000_000 * cost + 10_000_000
      && 10_000 * fee <= cost * s.store.feeBps < 10_000 * fee + 10_000
      && Holding(FillOne(s, self, taker, id, amount, permit).value.bank, k, who)
         == Holding(s.bank, k, who) + FillDelta(s.store, o, self, taker, amount, fee, k, who)
  {
    FillSettles(s, self, taker, id, amount, permit);
    var o, bank := s.store.orders[id], FillOne(s, self, taker, id, amount, permit).value.bank;
    SettleMoves(s.store, s.bank, bank, self, taker, o, amount, FeeOf(s.store, o, amount), permit, k, who);
  }

  lemma SettleMoves(s: Storage, bank: Bank, after: Bank, self: Address, taker: Address, o: Order, amount: int, fee: int,
                      permit: bool, k: Address, who: Address)
    requires 0 < amount && 0 <= fee <= Worth(amount, o.price)
    requires SettleFill(s, bank, self, taker, o, amount, Worth(amount, o.price) - fee, fee, permit) == Committed(after)
    ensures Holding(after, k, who) == Holding(bank, k, who) + FillDelta(s, o, self, taker, amount, fee, k, who)
  {
    match o.side
    case Sell => SellMoves(s, bank, self, taker, o, amount, fee, permit, k, who);
    case Buy => BuyMoves(s, bank, self, taker, o, amount, fee, permit, k, who);
  }

  lemma SellMoves(s: Storage, bank: Bank, self: Address, taker: Address, o: Order, amount: int, fee: int, permit: bool,
                  k: Address, who: Address)
    requires o.side == Sell && 0 < amount && 0 <= fee <= Worth(amount, o.price)
    requires SettleFill(s, bank, self, taker, o, amount, Worth(amount, o.price) - fee, fee, permit).Committed?
    ensures Holding(SettleFill(s, bank, self, taker, o, amount, Worth(amount, o.price) - fee, fee, permit).value, k, who)
         == Holding(bank, k, who) + FillDelta(s, o, self, taker, amount, fee, k, who)
  {
    var payout := Worth(amount, o.price) - fee;
    var b1 := PayIfPositive(bank, o.payment, taker, o.maker, payout, permit).value;
    var b2 := PayIfPositive(b1, o.payment, taker, s.feeRecipient, fee, permit).value;
    PayEffect(bank, o.payment, taker, o.maker, payout, permit, k, who);
    PayEffect(b1, o.payment, taker, s.feeRecipient, fee, permit, k, who);
    PayEffect(b2, o.credit, self, taker, amount, permit, k, who);
  }

  lemma BuyMoves(s: Storage, bank: Bank, self: Address, taker: Address, o: Order, amount: int, fee: int, permit: bool,
                  k: Address, who: Address)
    requires o.side == Buy && 0 < amount && 0 <= fee <= Worth(amount, o.price)
    requires SettleFill(s, bank, self, taker, o, amount, Worth(amount, o.price) - fee, fee, permit).Committed?
    ensures Holding(SettleFill(s, bank, self, taker, o, amount, Worth(amount, o.price) - fee, fee, permit).value, k, who)
         == Holding(bank, k, who) + FillDelta(s, o, self, taker, amount, fee, k, who)
  {
    var payout := Worth(amount, o.price) - fee;
    var b1 := PayIfPositive(bank, o.credit, taker, o.maker, amount, permit).value;
    var b2 := PayIfPositive(b1, o.payment, self, taker, payout, permit).value;
    PayEffect(bank, o.credit, taker, o.maker, amount, permit, k, who);
    PayEffect(b1, o.payment, self, taker, payout, permit, k, who);
    PayEffect(b2, o.payment, self, s.feeRecipient, fee, permit, k, who);
  }

  /** The share of an order's escrow that a fill uses up. */
  function Spent(o: Order, amount: int, k: Address): int {
    if o.side.Sell? then (if o.credit == k then amount else 0)
    else (if o.payment == k then Worth(amount, o.price) else 0)
  }

  lemma FillLiability(o: Order, self: Address, amount: int, k: Address)
    requires ProperOrder(o, self) && o.Live() && 0 < amount <= o.Remaining()
    ensures ProperOrder(AfterFill(o, amount), self)
    ensures Liability(AfterFill(o, amount), k) + Spent(o, amount, k) <= Liability(o, k)
  {
    var o' := AfterFill(o, amount);
    WorthSplit(amount, o'.Remaining(), o.price);
    assert amount + o'.Remaining() == o.Remaining();
    MulMono2(0, o'.Remaining(), 0, o.price);
    DivMono(0, o'.Remaining() * o.price, PRECISION);
  }

  lemma FillStaysSolvent(s: System, self: Address, taker: Address, id: nat, amount: int, permit: bool)
    requires Solvent(s, self) && taker != self
    requires FillOne(s, self, taker, id, amount, permit).Committed?
    ensures Solvent(FillOne(s, self, taker, id, amount, permit).value, self)
    ensures FillOne(s, self, taker, id, amount, permit).value.store.feeRecipient == s.store.feeRecipient
  {
    var t := FillOne(s, self, taker, id, amount, permit).value;
    var o := s.store.orders[id];
    FillLiability(o, self, amount, 0);
    forall k ensures Owed(t.store, k) <= Holding(t.bank, k, self) {
      FillMovesExactly(s, self, taker, id, amount, permit, k, self);
      FillLiability(o, self, amount, k);
      OwedUpdate(s.store, id, AfterFill(o, amount), k);
      assert Liabilities(t.store, k) == Liabilities(s.store.(orders := s.store.orders[id := AfterFill(o, amount)]), k);
      assert Owed(s.store, k) <= Holding(s.bank, k, self);
    }
  }

  lemma {:induction false} FillEachStaysSolvent(s: System, self: Address, taker: Address, ids: seq<nat>, amounts: seq<int>, permit: bool)
    requires Solvent(s, self) && taker != self && |ids| == |amounts|
    requires FillEach(s, self, taker, ids, amounts, permit).Committed?
    ensures Solvent(FillEach(s, self, taker, ids, amounts, permit).value, self)
    decreases |ids|
  {
    if ids != [] {
      FillStaysSolvent(s, self, taker, ids[0], amounts[0], permit);
      FillEachStaysSolvent(FillOne(s, self, taker, ids[0], amounts[0], permit).value, self, taker, ids[1..], amounts[1..], permit);
    }
  }

  lemma CreateStaysSolvent(s: System, self: Address, c: Call)
    requires Solvent(s, self) && c.CallCreate? && Outsider(c, self) && Step(s, self, c).Committed?
    ensures Solvent(Next(s, self, c), self)
  {
    var t := Next(s, self, c);
    var id := s.store.orderCount + 1;
    var o := t.store.orders[id];
    var escrow := if c.side.Sell? then (c.credit, c.amount) else (c.payment, Worth(c.amount, c.price));
    MulMono2(1, c.price, c.amount, c.amount);
    assert ProperOrder(o, self);
    assert t.bank == PayIfPositive(s.bank, escrow.0, c.maker, self, escrow.1, c.permit).value;
    forall k ensures Owed(t.store, k) <= Holding(t.bank, k, self) {
      PayEffect(s.bank, escrow.0, c.maker, self, escrow.1, c.permit, k, self);
      OwedUpdate(s.store, id, o, k);
      assert Liabilities(t.store, k) == Liabilities(s.store.(orders := s.store.orders[id := o]), k);
      assert Owed(s.store, k) <= Holding(s.bank, k, self);
    }
  }

  lemma CancelShape(s: System, self: Address, c: Call)
    requires Proper(s.store, self) && c.CallCancel? && Step(s, self, c).Committed?
    ensures c.id in s.store.orders && ProperOrder(s.store.orders[c.id], self) && s.store.orders[c.id].Live()
    ensures
      var o, t := s.store.orders[c.id], Next(s, self, c);
      var refund := if o.side.Sell? then (o.credit, o.Remaining()) else (o.payment, Worth(o.Remaining(), o.price));
      && 0 < refund.1
      && PayIfPositive(s.bank, refund.0, self, c.maker, refund.1, c.permit) == Committed(t.bank)
      && t.store.orders == s.store.orders[c.id := o.(status := Cancelled)]
      && t.store.orderCount == s.store.orderCount && t.store.feeBps == s.store.feeBps
      && c.maker != self
  {
  }

  lemma CancelStaysSolvent(s: System, self: Address, c: Call)
    requires Solvent(s, self) && c.CallCancel? && Step(s, self, c).Committed?
    ensures Solvent(Next(s, self, c), self)
  {
    CancelShape(s, self, c);
    var o, t := s.store.orders[c.id], Next(s, self, c);
    var refund := if o.side.Sell? then (o.credit, o.Remaining()) else (o.payment, Worth(o.Remaining(), o.price));
    forall k ensures Owed(t.store, k) <= Holding(t.bank, k, self) {
      PayEffect(s.bank, refund.0, self, c.maker, refund.1, c.permit, k, self);
      OwedUpdate(s.store, c.id, o.(status := Cancelled), k);
      assert Liabilities(t.store, k) == Liabilities(s.store.(orders := s.store.orders[c.id := o.(status := Cancelled)]), k);
      assert Owed(s.store, k) <= Holding(s.bank, k, self);
    }
  }

  lemma OtherStaysSolvent(s: System, self: Address, c: Call)
    requires Solvent(s, self) && Outsider(c, self) && Step(s, self, c).Committed?
    requires c.CallSetFee? || c.CallSetPaused? || c.CallTransfer?
    ensures Solvent(Next(s, self, c), self)
  {
    var t := Next(s, self, c);
    forall k ensures Owed(t.store, k) <= Holding(t.bank, k, self) {
      assert Liabilities(t.store, k) == Liabilities(s.store, k);
      assert Owed(s.store, k) <= Holding(s.bank, k, self);
      if c.CallTransfer? && c.amount > 0 {
        PayEffect(s.bank, c.token, c.from, c.to, c.amount, true, k, self);
      }
    }
  }

  lemma StepStaysSolvent(s: System, self: Address, c: Call)
    requires Solvent(s, self) && Outsider(c, self)
    ensures Solvent(Next(s, self, c), self)
  {
    if Step(s, self, c).Committed? {
      match c
      case CallCreate(side, maker, credit, payment, amount, price, now, permit) => CreateStaysSolvent(s, self, c);
      case CallFill(taker, id, amount, permit) => FillStaysSolvent(s, self, taker, id, amount, permit);
      case CallBatchFill(taker, ids, amounts, permit) => FillEachStaysSolvent(s, self, taker, ids, amounts, permit);
      case CallCancel(maker, id, permit) => CancelStaysSolvent(s, self, c);
      case _ => OtherStaysSolvent(s, self, c);
    }
  }

  /** Over every run the market stays solvent in every token, whatever the fee and
  whoever receives it, the market and the taker included. */
  lemma {:induction false} EscrowSolvency(s: System, self: Address, calls: seq<Call>)
    requires Solvent(s, self)
    requires forall i :: 0 <= i < |calls| ==> Outsider(calls[i], self)
    ensures Solvent(Run(s, self, calls), self)
  {
    if calls != [] {
      EscrowSolvency(s, self, calls[..|calls| - 1]);
      StepStaysSolvent(Run(s, self, calls[..|calls| - 1]), self, calls[|calls| - 1]);
    }
  }

  lemma FreshMarketIsSolvent(admin: Address, feeBps: nat, feeRecipient: Address, bank: Bank, self: Address)
    requires Init(admin, feeBps, feeRecipient).Committed?
    requires forall k :: k in bank ==> 0 <= bank[k]
    ensures Solvent(System(Init(admin, feeBps, feeRecipient).value, bank), self)
  {
    var s := Init(admin, feeBps, feeRecipient).value;
    forall token ensures Owed(s, token) == 0 {
      assert Liabilities(s, token) == map[];
    }
  }

  // ---- Payments never lack funds ----

  /** In a solvent market the maker's cancellation goes through exactly when the
  order is theirs and live and, for a buy order, the refund does not round to
  nothing. Escrow is never the obstacle. */
  lemma CancelNeverLacksFunds(s: System, self: Address, maker: Address, id: nat)
    requires Solvent(s, self)
    ensures CancelOrder(s, self, maker, id, true).Committed? <==>
              && id in s.store.orders && s.store.orders[id].maker == maker && s.store.orders[id].Live()
              && (s.store.orders[id].side.Buy? ==>
                    s.store.orders[id].Remaining() * s.store.orders[id].price >= PRECISION)
  {
    if id in s.store.orders && s.store.orders[id].Live() {
      var o := s.store.orders[id];
      LiabilityIsCovered(s, self, id, o.credit);
      LiabilityIsCovered(s, self, id, o.payment);
      CostFits(o.Remaining(), o.amount, o.price);
    }
  }

  /** A fill of a buy order goes through exactly when the amount is there to fill,
  is worth at least one unit, and the taker has the credits. */
  lemma BuyFillNeverLacksFunds(s: System, self: Address, taker: Address, id: nat, amount: int)
    requires Solvent(s, self) && taker != self
    requires id in s.store.orders && s.store.orders[id].side.Buy?
    ensures FillOne(s, self, taker, id, amount, true).Committed? <==>
              var o := s.store.orders[id];
              && o.Live() && 0 < amount <= o.Remaining() && amount * o.price >= PRECISION
              && amount <= Holding(s.bank, o.credit, taker)
  {
    var o := s.store.orders[id];
    if o.Live() && 0 < amount <= o.Remaining() {
      CostFits(amount, o.amount, o.price);
      if amount * o.price >= PRECISION && amount <= Holding(s.bank, o.credit, taker) {
        var cost := Worth(amount, o.price);
        CostFits(o.Remaining(), o.amount, o.price);
        MulMono(amount, o.Remaining(), o.price);
        WorthBounded(amount, o.price);
        FeeFits(cost, s.store.feeBps);
        var fee := CalculateFee(cost, s.store.feeBps).value;
        LiabilityIsCovered(s, self, id, o.payment);
        DivMono(amount * o.price, o.Remaining() * o.price, PRECISION);
        PayEffect(s.bank, o.credit, taker, o.maker, amount, true, o.payment, self);
        var b1 := Pay(s.bank, o.credit, taker, o.maker, amount, true).value;
        PayEffect(b1, o.payment, self, taker, cost - fee, true, o.payment, self);
      }
    }
  }

  /** What the taker of a sell order must have: the cost, or, on an order of its
  own, the larger of the two parts it pays one after the other. */
  function Needed(s: Storage, o: Order, taker: Address, amount: int): int {
    var cost, fee := Worth(amount, o.price), FeeOf(s, o, amount);
    if taker == o.maker then Max(cost - fee, fee) else cost
  }

  lemma SellPayments(s: System, self: Address, taker: Address, o: Order, amount: int, payout: int, fee: int)
    requires taker != self && o.side.Sell? && 0 <= payout && 0 <= fee && 0 < payout + fee && 0 < amount
    requires amount <= Holding(s.bank, o.credit, self)
    ensures SettleFill(s.store, s.bank, self, taker, o, amount, payout, fee, true).Committed?
            <==> (if taker == o.maker then Max(payout, fee) else payout + fee) <= Holding(s.bank, o.payment, taker)
  {
    var first := PayIfPositive(s.bank, o.payment, taker, o.maker, payout, true);
    if first.Committed? {
      PayEffect(s.bank, o.payment, taker, o.maker, payout, true, o.payment, taker);
      PayEffect(s.bank, o.payment, taker, o.maker, payout, true, o.credit, self);
      var second := PayIfPositive(first.value, o.payment, taker, s.store.feeRecipient, fee, true);
      if second.Committed? {
        PayEffect(first.value, o.payment, taker, s.store.feeRecipient, fee, true, o.credit, self);
      }
    }
  }

  /** A fill of a sell order goes through exactly when the amount is there to fill,
  is worth at least one unit, and the taker can pay: the credits are there. */
  lemma SellFillNeverLacksFunds(s: System, self: Address, taker: Address, id: nat, amount: int)
    requires Solvent(s, self) && taker != self
    requires id in s.store.orders && s.store.orders[id].side.Sell?
    ensures FillOne(s, self, taker, id, amount, true).Committed? <==>
              var o := s.store.orders[id];
              && o.Live() && 0 < amount <= o.Remaining() && amount * o.price >= PRECISION
              && Needed(s.store, o, taker, amount) <= Holding(s.bank, o.payment, taker)
  {
    var o := s.store.orders[id];
    if o.Live() && 0 < amount <= o.Remaining() {
      CostFits(amount, o.amount, o.price);
      if amount * o.price >= PRECISION {
        var cost := Worth(amount, o.price);
        MulMono(amount, o.amount, o.price);
        WorthBounded(amount, o.price);
        FeeFits(cost, s.store.feeBps);
        LiabilityIsCovered(s, self, id, o.credit);
        var fee := CalculateFee(cost, s.store.feeBps).value;
        SellPayments(s, self, taker, o, amount, cost - fee, fee);
      }
    }
  }

  // ---- Rounding dust ----

  function FillWorth(fills: seq<int>, price: int): int {
    if fills == [] then 0 else FillWorth(fills[..|fills| - 1], price) + Worth(fills[|fills| - 1], price)
  }

  function FillSum(fills: seq<int>): int {
    if fills == [] then 0 else FillSum(fills[..|fills| - 1]) + fills[|fills| - 1]
  }

  /** However an amount is split, flooring every part loses less than one unit per
  part: at most the number of fills while some of it is left, one less once
  nothing is. */
  lemma {:induction false} DustBound(fills: seq<int>, rest: int, price: int)
    ensures 0 <= Worth(FillSum(fills) + rest, price) - FillWorth(fills, price) - Worth(rest, price) <= |fills|
    ensures fills != [] && rest == 0 ==> Worth(FillSum(fills), price) - FillWorth(fills, price) <= |fills| - 1
  {
    if fills != [] {
      var n := |fills| - 1;
      DustBound(fills[..n], fills[n] + rest, price);
      WorthSplit(fills[n], rest, price);
    }
  }

  /** The fills of order `id` inside one batch, in order. */
  function BatchFillsOf(ids: seq<nat>, amounts: seq<int>, id: nat): seq<int>
    requires |ids| == |amounts|
    decreases |ids|
  {
    if ids == [] then []
    else (if ids[0] == id then [amounts[0]] else []) + BatchFillsOf(ids[1..], amounts[1..], id)
  }

  function StepFills(s: System, self: Address, c: Call, id: nat): seq<int> {
    if Step(s, self, c).Reverted? then []
    else
      match c
      case CallFill(taker, i, amount, permit) => if i == id then [amount] else []
      case CallBatchFill(taker, ids, amounts, permit) => BatchFillsOf(ids, amounts, id)
      case _ => []
  }

  /** Every fill of order `id` in the run, in order. */
  function FillsOf(s: System, self: Address, calls: seq<Call>, id: nat): seq<int> {
    if calls == [] then []
    else
      var front := calls[..|calls| - 1];
      FillsOf(s, self, front, id) + StepFills(Run(s, self, front), self, calls[|calls| - 1], id)
  }

  lemma {:induction false} FillSumAppend(a: seq<int>, b: seq<int>)
    ensures FillSum(a + b) == FillSum(a) + FillSum(b)
  {
    if b == [] {
      assert a + b == a;
    } else {
      var n := |b| - 1;
      FillSumAppend(a, b[..n]);
      assert (a + b)[..|a + b| - 1] == a + b[..n];
    }
  }

  /** The terms of an order: everything but how far it is filled. */
  predicate SameTerms(o: Order, p: Order) {
    p == o.(filled := p.filled, status := p.status)
  }

  lemma {:induction false} FillEachFills(s: System, self: Address, taker: Address, ids: seq<nat>, amounts: seq<int>, permit: bool, id: nat)
    requires |ids| == |amounts| && id in s.store.orders
    requires FillEach(s, self, taker, ids, amounts, permit).Committed?
    ensures
      var t := FillEach(s, self, taker, ids, amounts, permit).value;
      && id in t.store.orders && SameTerms(s.store.orders[id], t.store.orders[id])
      && t.store.orders[id].filled == s.store.orders[id].filled + FillSum(BatchFillsOf(ids, amounts, id))
    decreases |ids|
  {
    if ids != [] {
      var t := FillOne(s, self, taker, ids[0], amounts[0], permit).value;
      FillEachFills(t, self, taker, ids[1..], amounts[1..], permit, id);
      var head := if ids[0] == id then [amounts[0]] else [];
      FillSumAppend(head, BatchFillsOf(ids[1..], amounts[1..], id));
      assert FillSum(head) == if ids[0] == id then amounts[0] else 0;
    }
  }

  lemma StepFilled(s: System, self: Address, c: Call, id: nat)
    requires id in s.store.orders && Proper(s.store, self)
    ensures
      var t := Next(s, self, c);
      && id in t.store.orders && SameTerms(s.store.orders[id], t.store.orders[id])
      && t.store.orders[id].filled == s.store.orders[id].filled + FillSum(StepFills(s, self, c, id))
  {
    if Step(s, self, c).Committed? {
      if c.CallBatchFill? {
        FillEachFills(s, self, c.taker, c.ids, c.amounts, c.permit, id);
      } else if c.CallFill? {
        assert StepFills(s, self, c, id) == if c.id == id then [c.amount] else [];
      }
    }
  }

  lemma {:induction false} FilledIsSumOfFills(s: System, self: Address, calls: seq<Call>, id: nat)
    requires Solvent(s, self) && id in s.store.orders
    requires forall i :: 0 <= i < |calls| ==> Outsider(calls[i], self)
    ensures
      var t := Run(s, self, calls);
      && id in t.store.orders && SameTerms(s.store.orders[id], t.store.orders[id])
      && t.store.orders[id].filled == s.store.orders[id].filled + FillSum(FillsOf(s, self, calls, id))
  {
    if calls != [] {
      var front := calls[..|calls| - 1];
      FilledIsSumOfFills(s, self, front, id);
      EscrowSolvency(s, self, front);
      StepFilled(Run(s, self, front), self, calls[|calls| - 1], id);
      FillSumAppend(FillsOf(s, self, front, id), StepFills(Run(s, self, front), self, calls[|calls| - 1], id));
    }
  }

  /** The value that flooring an order's parts has left behind in the market. */
  function Dust(o: Order, fills: seq<int>): int {
    Worth(o.amount, o.price) - FillWorth(fills, o.price) - Worth(o.Remaining(), o.price)
  }

  lemma DustOfOrder(o: Order, fills: seq<int>)
    requires o.filled == FillSum(fills) && 0 < o.amount
    ensures 0 <= Dust(o, fills) <= |fills|
    ensures o.filled == o.amount ==> Dust(o, fills) <= |fills| - 1
  {
    DustBound(fills, o.Remaining(), o.price);
  }

  /** From the moment a buy order is placed: what it brought into escrow, less what
  its `k` fills cost and what is still owed or was refunded, is between 0 and
  `k`, and at most `k - 1` once it is filled, however it is split into fills,
  alone or in batches. */
  lemma DustOfEveryBuyOrder(s: System, self: Address, calls: seq<Call>, id: nat)
    requires Solvent(s, self) && id in s.store.orders
    requires s.store.orders[id].side.Buy? && s.store.orders[id].filled == 0
    requires forall i :: 0 <= i < |calls| ==> Outsider(calls[i], self)
    ensures id in Run(s, self, calls).store.orders
    ensures
      var o, fills := Run(s, self, calls).store.orders[id], FillsOf(s, self, calls, id);
      && 0 <= Dust(o, fills) <= |fills|
      && (o.filled == o.amount ==> Dust(o, fills) <= |fills| - 1)
  {
    FilledIsSumOfFills(s, self, calls, id);
    EscrowSolvency(s, self, calls);
    DustOfOrder(Run(s, self, calls).store.orders[id], FillsOf(s, self, calls, id));
  }

  // ---- Remainders too small to trade ----

  /** A live buy order whose remainder is worth less than one unit. */
  predicate Stuck(s: Storage, id: nat) {
    && id in s.orders && s.orders[id].Live() && s.orders[id].side.Buy? && 0 < s.orders[id].price
    && s.orders[id].Remaining() * s.orders[id].price < PRECISION
  }

  lemma StuckCannotFill(s: System, self: Address, taker: Address, id: nat, amount: int, permit: bool)
    requires Stuck(s.store, id)
    ensures FillOne(s, self, taker, id, amount, permit).Reverted?
  {
    var o := s.store.orders[id];
    if 0 < amount <= o.Remaining() {
      MulMono(amount, o.Remaining(), o.price);
      FloorAtLeast(amount * o.price, PRECISION, 1);
    }
  }

  lemma {:induction false} StuckThroughBatch(s: System, self: Address, taker: Address, ids: seq<nat>, amounts: seq<int>, permit: bool, id: nat)
    requires Stuck(s.store, id) && |ids| == |amounts|
    ensures
      var r := FillEach(s, self, taker, ids, amounts, permit);
      r.Committed? ==> id in r.value.store.orders && r.value.store.orders[id] == s.store.orders[id]
    decreases |ids|
  {
    if ids != [] {
      StuckCannotFill(s, self, taker, id, amounts[0], permit);
      var r := FillOne(s, self, taker, ids[0], amounts[0], permit);
      if r.Committed? {
        StuckThroughBatch(r.value, self, taker, ids[1..], amounts[1..], permit, id);
      }
    }
  }

  lemma StuckThroughStep(s: System, self: Address, c: Call, id: nat)
    requires Stuck(s.store, id) && Proper(s.store, self)
    ensures id in Next(s, self, c).store.orders && Next(s, self, c).store.orders[id] == s.store.orders[id]
  {
    var o := s.store.orders[id];
    match c
    case CallFill(taker, _, amount, permit) => StuckCannotFill(s, self, taker, id, amount, permit);
    case CallBatchFill(taker, ids, amounts, permit) =>
      if |ids| == |amounts| {
        StuckThroughBatch(s, self, taker, ids, amounts, permit, id);
      }
    case CallCancel(_, _, _) => FloorAtLeast(o.Remaining() * o.price, PRECISION, 1);
    case _ =>
  }

  /** Once a buy order's remainder is worth less than one unit, no call ever fills
  or cancels it: it stays live, and on its maker's list, for good. */
  lemma {:induction false} TinyRemainderIsStuck(s: System, self: Address, calls: seq<Call>, id: nat)
    requires Solvent(s, self) && Stuck(s.store, id)
    requires forall i :: 0 <= i < |calls| ==> Outsider(calls[i], self)
    ensures Stuck(Run(s, self, calls).store, id)
    ensures Run(s, self, calls).store.orders[id] == s.store.orders[id]
  {
    if calls != [] {
      var front := calls[..|calls| - 1];
      TinyRemainderIsStuck(s, self, front, id);
      EscrowSolvency(s, self, front);
      StuckThroughStep(Run(s, self, front), self, calls[|calls| - 1], id);
    }
  }

  /** A fill leaves such a remainder exactly if it takes all but less than one
  unit's worth of a buy order. */
  lemma FillStrandsExactly(s: System, self: Address, taker: Address, id: nat, amount: int, permit: bool)
    requires Proper(s.store, self) && FillOne(s, self, taker, id, amount, permit).Committed?
    ensures id in s.store.orders
    ensures
      var o := s.store.orders[id];
      Stuck(FillOne(s, self, taker, id, amount, permit).value.store, id)
      <==> o.side.Buy? && 0 < (o.Remaining() - amount) * o.price < PRECISION
  {
    var o := s.store.orders[id];
    var rest := o.Remaining() - amount;
    MulMono2(0, rest, 0, o.price);
    if rest > 0 {
      MulMono2(1, rest, 1, o.price);
    }
  }

  /** A new market in which maker 1 bids for one and a half units' worth, and taker
  2 sells one unit's worth. */
  function Stranding(): seq<Call> {
    [CallCreate(Buy, 1, 10, 20, 15_000_000, 1, 0, true), CallFill(2, 1, 10_000_000, true)]
  }

  const FUNDS: Bank := map[(20, 1) := 1, (10, 2) := 10_000_000]

  lemma FirstOrder(s: Storage, admin: Address, feeRecipient: Address)
    requires Init(admin, 0, feeRecipient) == Committed(s)
    ensures
      var t := Next(System(s, FUNDS), 5, Stranding()[0]);
      && t.store.orders == map[1 := Order(1, 1, Buy, 10, 20, 15_000_000, 0, 1, 0, Open)] && t.store.feeBps == 0 && !t.store.paused
      && t.store.feeRecipient == feeRecipient
      && Holding(t.bank, 20, 5) == 1 && Holding(t.bank, 10, 2) == 10_000_000
  {
    assert CalculateCost(15_000_000, 1) == Committed(1);
  }

  lemma FirstFill(s: System)
    requires s.store.orders == map[1 := Order(1, 1, Buy, 10, 20, 15_000_000, 0, 1, 0, Open)] && s.store.feeBps == 0 && !s.store.paused
    requires Holding(s.bank, 20, 5) == 1 && Holding(s.bank, 10, 2) == 10_000_000
    ensures Stuck(Next(s, 5, Stranding()[1]).store, 1)
  {
    assert CalculateCost(10_000_000, 1) == Committed(1);
    var o := s.store.orders[1];
    var b := Pay(s.bank, 10, 2, 1, 10_000_000, true);
    assert b.Committed? && Holding(b.value, 20, 5) == 1;
  }

  /** That is enough to strand an order: half a unit's worth stays bid for ever. */
  lemma OrderGetsStuck(admin: Address, feeRecipient: Address)
    ensures Init(admin, 0, feeRecipient).Committed?
    ensures Stuck(Run(System(Init(admin, 0, feeRecipient).value, FUNDS), 5, Stranding()).store, 1)
  {
    var s, calls := Init(admin, 0, feeRecipient).value, Stranding();
    FirstOrder(s, admin, feeRecipient);
    FirstFill(Next(System(s, FUNDS), 5, calls[0]));
    assert calls[..1] == [calls[0]] && calls[..1][..0] == [];
    assert Run(System(s, FUNDS), 5, calls[..1]) == Next(System(s, FUNDS), 5, calls[0]);
  }

  // ---- The makers' lists ----

  /** A maker's list names exactly that maker's live orders, each once, and never
  more than fifty. */
  ghost predicate ListExact(s: Storage, maker: Address) {
    var list := OpenOrders(s, maker);
    && NoRepeats(list) && |list| <= 50
    && forall id :: id in list <==> id in s.orders && s.orders[id].Live() && s.orders[id].maker == maker
  }

  ghost predicate ListsExact(s: Storage) {
    forall maker :: ListExact(s, maker)
  }

  /** Closing an order removes it from its maker's list and no other. */
  lemma ClosingKeepsLists(s: Storage, id: nat, o: Order)
    requires ListsExact(s) && id in s.orders && s.orders[id].Live()
    requires !o.Live() && o.maker == s.orders[id].maker
    ensures ListsExact(RemoveMakerOrder(s, o.maker, id).(orders := s.orders[id := o]))
  {
    var t := RemoveMakerOrder(s, o.maker, id).(orders := s.orders[id := o]);
    forall maker ensures ListExact(t, maker) {
      assert ListExact(s, maker);
      WithoutRemoves(OpenOrders(s, maker), id);
    }
  }

  lemma UpdatingKeepsLists(s: Storage, id: nat, o: Order)
    requires ListsExact(s) && id in s.orders && s.orders[id].Live()
    requires o.Live() && o.maker == s.orders[id].maker
    ensures ListsExact(s.(orders := s.orders[id := o]))
  {
    var t := s.(orders := s.orders[id := o]);
    forall maker ensures ListExact(t, maker) {
      assert ListExact(s, maker);
    }
  }

  lemma FillKeepsLists(s: System, self: Address, taker: Address, id: nat, amount: int, permit: bool)
    requires ListsExact(s.store) && FillOne(s, self, taker, id, amount, permit).Committed?
    ensures ListsExact(FillOne(s, self, taker, id, amount, permit).value.store)
  {
    var o := AfterFill(s.store.orders[id], amount);
    if o.Live() {
      UpdatingKeepsLists(s.store, id, o);
    } else {
      ClosingKeepsLists(s.store, id, o);
    }
  }

  lemma {:induction false} FillEachKeepsLists(s: System, self: Address, taker: Address, ids: seq<nat>, amounts: seq<int>, permit: bool)
    requires ListsExact(s.store) && |ids| == |amounts| && FillEach(s, self, taker, ids, amounts, permit).Committed?
    ensures ListsExact(FillEach(s, self, taker, ids, amounts, permit).value.store)
    decreases |ids|
  {
    if ids != [] {
      FillKeepsLists(s, self, taker, ids[0], amounts[0], permit);
      FillEachKeepsLists(FillOne(s, self, taker, ids[0], amounts[0], permit).value, self, taker, ids[1..], amounts[1..], permit);
    }
  }

  lemma CreateKeepsLists(s: System, self: Address, c: Call)
    requires ListsExact(s.store) && Proper(s.store, self) && c.CallCreate? && Step(s, self, c).Committed?
    ensures ListsExact(Next(s, self, c).store)
  {
    var t, id := Next(s, self, c).store, s.store.orderCount + 1;
    forall maker ensures ListExact(t, maker) {
      assert ListExact(s.store, maker);
      assert id !in s.store.orders && id !in OpenOrders(s.store, maker);
      assert maker == c.maker ==> OpenOrders(t, maker) == OpenOrders(s.store, maker) + [id];
    }
  }

  lemma StepKeepsLists(s: System, self: Address, c: Call)
    requires ListsExact(s.store) && Proper(s.store, self)
    ensures ListsExact(Next(s, self, c).store)
  {
    if Step(s, self, c).Committed? {
      match c
      case CallCreate(side, maker, credit, payment, amount, price, now, permit) => CreateKeepsLists(s, self, c);
      case CallFill(taker, id, amount, permit) => FillKeepsLists(s, self, taker, id, amount, permit);
      case CallBatchFill(taker, ids, amounts, permit) => FillEachKeepsLists(s, self, taker, ids, amounts, permit);
      case CallCancel(maker, id, permit) => ClosingKeepsLists(s.store, id, s.store.orders[id].(status := Cancelled));
      case _ =>
        forall maker ensures ListExact(Next(s, self, c).store, maker) {
          assert ListExact(s.store, maker);
        }
    }
  }

  lemma {:induction false} OpenOrderListsAreExact(s: System, self: Address, calls: seq<Call>)
    requires Solvent(s, self) && ListsExact(s.store)
    requires forall i :: 0 <= i < |calls| ==> Outsider(calls[i], self)
    ensures ListsExact(Run(s, self, calls).store)
  {
    if calls != [] {
      var front := calls[..|calls| - 1];
      OpenOrderListsAreExact(s, self, front);
      EscrowSolvency(s, self, front);
      StepKeepsLists(Run(s, self, front), self, calls[|calls| - 1]);
    }
  }
}
