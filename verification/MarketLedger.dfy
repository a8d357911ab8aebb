/** Where every unit the market holds comes from: an exact account of escrow,
rounding dust, fees and gifts over every run. */
module MarketLedger {
  import opened Numeric
  import opened Transactions
  import opened Sums
  import opened Banks
  import opened MarketSpec
  import opened MarketSafety

  /** What the market holds of a token beyond what its open orders are owed. */
  ghost function Surplus(s: System, self: Address, k: Address): int {
    Holding(s.bank, k, self) - Owed(s.store, k)
  }

  /** What flooring leaves behind when `amount` of a buy order is filled. */
  function FillDust(o: Order, amount: int): int {
    if o.side.Sell? then 0
    else Worth(o.Remaining(), o.price) - Worth(amount, o.price) - Worth(o.Remaining() - amount, o.price)
  }

  /** The fee of a fill, if the market is its own fee recipient. */
  function FeeKept(s: Storage, o: Order, self: Address, amount: int, k: Address): int {
    if k == o.payment && s.feeRecipient == self then FeeOf(s, o, amount) else 0
  }

  // ---- One fill ----

  lemma LiabilityAfterFill(o: Order, self: Address, amount: int, k: Address)
    requires ProperOrder(o, self) && o.Live() && 0 < amount <= o.Remaining()
    ensures Liability(o, k) - Liability(AfterFill(o, amount), k) == Spent(o, amount, k) + if k == o.payment then FillDust(o, amount) else 0
  {
    var p := AfterFill(o, amount);
    assert p.Remaining() == o.Remaining() - amount;
    if !p.Live() {
      assert Worth(0, o.price) == 0;
    }
  }

  lemma FillShape(s: System, self: Address, taker: Address, id: nat, amount: int, permit: bool)
    requires FillOne(s, self, taker, id, amount, permit).Committed?
    ensures id in s.store.orders && s.store.orders[id].Live() && 0 < amount <= s.store.orders[id].Remaining()
    ensures
      var t := FillOne(s, self, taker, id, amount, permit).value.store;
      && t.orders == s.store.orders[id := AfterFill(s.store.orders[id], amount)]
      && t.feeRecipient == s.store.feeRecipient && t.feeBps == s.store.feeBps && t.orderCount == s.store.orderCount
  {
  }

  /** A fill adds its dust, and a fee paid to the market, to the surplus. */
  lemma FillSurplus(s: System, self: Address, taker: Address, id: nat, amount: int, permit: bool, k: Address)
    requires Proper(s.store, self) && taker != self && FillOne(s, self, taker, id, amount, permit).Committed?
    ensures id in s.store.orders
    ensures
      var o := s.store.orders[id];
      Surplus(FillOne(s, self, taker, id, amount, permit).value, self, k)
      == Surplus(s, self, k) + FeeKept(s.store, o, self, amount, k) + if k == o.payment then FillDust(o, amount) else 0
  {
    FillShape(s, self, taker, id, amount, permit);
    var o, t := s.store.orders[id], FillOne(s, self, taker, id, amount, permit).value;
    LiabilityAfterFill(o, self, amount, k);
    FillMovesExactly(s, self, taker, id, amount, permit, k, self);
    OwedUpdate(s.store, id, AfterFill(o, amount), k);
    assert Liabilities(t.store, k) == Liabilities(s.store.(orders := t.store.orders), k);
  }

  // ---- The dust book ----

  /** Dust per order, kept up to date fill by fill. */
  type Book = map<nat, int>

  function BookEach(s: System, self: Address, taker: Address, ids: seq<nat>, amounts: seq<int>, permit: bool, book: Book): Book
    requires |ids| == |amounts|
    decreases |ids|
  {
    if ids == [] then book
    else
      var t := FillOne(s, self, taker, ids[0], amounts[0], permit);
      if t.Reverted? || ids[0] !in s.store.orders then book
      else BookEach(t.value, self, taker, ids[1..], amounts[1..], permit,
                    book[ids[0] := Get(book, ids[0]) + FillDust(s.store.orders[ids[0]], amounts[0])])
  }

  function StepBook(s: System, self: Address, c: Call, book: Book): Book {
    if Step(s, self, c).Reverted? then book
    else
      match c
      case CallCreate(_, _, _, _, _, _, _, _) => book[s.store.orderCount + 1 := 0]
      case CallFill(taker, id, amount, permit) => BookEach(s, self, taker, [id], [amount], permit, book)
      case CallBatchFill(taker, ids, amounts, permit) => BookEach(s, self, taker, ids, amounts, permit, book)
      case _ => book
  }

  function RunBook(s: System, self: Address, calls: seq<Call>): Book {
    if calls == [] then map[]
    else
      StepBook(Run(s, self, calls[..|calls| - 1]), self, calls[|calls| - 1], RunBook(s, self, calls[..|calls| - 1]))
  }

  /** The entries of orders paid in token `k`. */
  function EntriesIn(orders: map<nat, Order>, book: Book, k: Address): map<nat, int> {
    map id | id in book && id in orders && orders[id].payment == k :: book[id]
  }

  ghost function DustIn(s: Storage, book: Book, k: Address): int {
    Total(EntriesIn(s.orders, book, k))
  }

  lemma EntryAdds(orders: map<nat, Order>, after: map<nat, Order>, book: Book, id: nat, d: int, k: Address)
    requires id in orders && id in book && after.Keys == orders.Keys
    requires forall j :: j in orders ==> after[j].payment == orders[j].payment
    ensures Total(EntriesIn(after, book[id := book[id] + d], k))
         == Total(EntriesIn(orders, book, k)) + if orders[id].payment == k then d else 0
  {
    var m := EntriesIn(orders, book, k);
    if orders[id].payment == k {
      assert EntriesIn(after, book[id := book[id] + d], k) == m[id := book[id] + d];
      TotalUpdate(m, id, book[id] + d);
    } else {
      assert EntriesIn(after, book[id := book[id] + d], k) == m;
    }
  }

  // ---- Fees and gifts ----

  function EachFees(s: System, self: Address, taker: Address, ids: seq<nat>, amounts: seq<int>, permit: bool, k: Address): int
    requires |ids| == |amounts|
    decreases |ids|
  {
    if ids == [] then 0
    else
      var t := FillOne(s, self, taker, ids[0], amounts[0], permit);
      if t.Reverted? || ids[0] !in s.store.orders then 0
      else FeeKept(s.store, s.store.orders[ids[0]], self, amounts[0], k)
           + EachFees(t.value, self, taker, ids[1..], amounts[1..], permit, k)
  }

  /** Fees the market pays to itself, and transfers made to it. */
  function Income(s: System, self: Address, c: Call, k: Address): int {
    if Step(s, self, c).Reverted? then 0
    else
      match c
      case CallFill(taker, id, amount, permit) => EachFees(s, self, taker, [id], [amount], permit, k)
      case CallBatchFill(taker, ids, amounts, permit) => EachFees(s, self, taker, ids, amounts, permit, k)
      case CallTransfer(token, from, to, amount) => if token == k && to == self then Max(amount, 0) else 0
      case _ => 0
  }

  function RunIncome(s: System, self: Address, calls: seq<Call>, k: Address): int {
    if calls == [] then 0
    else
      RunIncome(s, self, calls[..|calls| - 1], k) + Income(Run(s, self, calls[..|calls| - 1]), self, calls[|calls| - 1], k)
  }

  // ---- Every call keeps the account ----

  /** Every order has an entry. */
  ghost predicate Kept(s: Storage, book: Book) {
    book.Keys == s.orders.Keys
  }

  /** From `s` to `t` the surplus grew by the dust entered in the book and by `fees`. */
  ghost predicate Account(s: System, book: Book, t: System, after: Book, fees: int, self: Address, k: Address) {
    && Kept(t.store, after)
    && Surplus(t, self, k) - DustIn(t.store, after, k) == Surplus(s, self, k) - DustIn(s.store, book, k) + fees
  }

  /** A batch is its first fill and the rest. */
  lemma Unroll(s: System, self: Address, taker: Address, ids: seq<nat>, amounts: seq<int>, permit: bool, book: Book)
    returns (t: System, one: Book)
    requires |ids| == |amounts| != 0 && FillEach(s, self, taker, ids, amounts, permit).Committed?
    ensures FillOne(s, self, taker, ids[0], amounts[0], permit) == Committed(t) && ids[0] in s.store.orders
    ensures FillEach(s, self, taker, ids, amounts, permit) == FillEach(t, self, taker, ids[1..], amounts[1..], permit)
    ensures BookEach(s, self, taker, ids, amounts, permit, book) == BookEach(t, self, taker, ids[1..], amounts[1..], permit, one)
    ensures one == book[ids[0] := Get(book, ids[0]) + FillDust(s.store.orders[ids[0]], amounts[0])]
  {
    t := FillOne(s, self, taker, ids[0], amounts[0], permit).value;
    FillShape(s, self, taker, ids[0], amounts[0], permit);
    one := book[ids[0] := Get(book, ids[0]) + FillDust(s.store.orders[ids[0]], amounts[0])];
  }

  lemma UnrollFees(s: System, self: Address, taker: Address, ids: seq<nat>, amounts: seq<int>, permit: bool, k: Address, t: System)
    returns (fee: int)
    requires |ids| == |amounts| != 0 && FillOne(s, self, taker, ids[0], amounts[0], permit) == Committed(t)
    ensures ids[0] in s.store.orders && fee == FeeKept(s.store, s.store.orders[ids[0]], self, amounts[0], k)
    ensures EachFees(s, self, taker, ids, amounts, permit, k) == fee + EachFees(t, self, taker, ids[1..], amounts[1..], permit, k)
  {
    FillShape(s, self, taker, ids[0], amounts[0], permit);
    fee := FeeKept(s.store, s.store.orders[ids[0]], self, amounts[0], k);
  }

  lemma FillKeepsAccount(s: System, self: Address, taker: Address, id: nat, amount: int, permit: bool, t: System,
                         book: Book, after: Book, fee: int, k: Address)
    requires Solvent(s, self) && taker != self && Kept(s.store, book)
    requires FillOne(s, self, taker, id, amount, permit) == Committed(t) && id in s.store.orders
    requires after == book[id := Get(book, id) + FillDust(s.store.orders[id], amount)]
    requires fee == FeeKept(s.store, s.store.orders[id], self, amount, k)
    ensures Solvent(t, self) && Account(s, book, t, after, fee, self, k)
  {
    FillLands(s, self, taker, id, amount, permit, t, k);
    FillBooked(s.store, t.store, id, amount, book, after, k);
  }

  lemma FillLands(s: System, self: Address, taker: Address, id: nat, amount: int, permit: bool, t: System, k: Address)
    requires Solvent(s, self) && taker != self && FillOne(s, self, taker, id, amount, permit) == Committed(t)
    ensures id in s.store.orders && t.store.orders == s.store.orders[id := AfterFill(s.store.orders[id], amount)]
    ensures Solvent(t, self)
    ensures
      var o := s.store.orders[id];
      Surplus(t, self, k) == Surplus(s, self, k) + FeeKept(s.store, o, self, amount, k) + if k == o.payment then FillDust(o, amount) else 0
  {
    FillShape(s, self, taker, id, amount, permit);
    FillSurplus(s, self, taker, id, amount, permit, k);
    FillStaysSolvent(s, self, taker, id, amount, permit);
  }

  lemma FillBooked(s: Storage, t: Storage, id: nat, amount: int, book: Book, after: Book, k: Address)
    requires id in s.orders && t.orders == s.orders[id := AfterFill(s.orders[id], amount)] && Kept(s, book)
    requires after == book[id := Get(book, id) + FillDust(s.orders[id], amount)]
    ensures Kept(t, after)
    ensures DustIn(t, after, k) == DustIn(s, book, k) + if s.orders[id].payment == k then FillDust(s.orders[id], amount) else 0
  {
    EntryAdds(s.orders, t.orders, book, id, FillDust(s.orders[id], amount), k);
  }

  lemma FirstAccount(s: System, self: Address, taker: Address, ids: seq<nat>, amounts: seq<int>, permit: bool, book: Book, k: Address)
    returns (t: System, one: Book, fee: int)
    requires Solvent(s, self) && taker != self && |ids| == |amounts| != 0 && Kept(s.store, book)
    requires FillEach(s, self, taker, ids, amounts, permit).Committed?
    ensures FillEach(s, self, taker, ids, amounts, permit) == FillEach(t, self, taker, ids[1..], amounts[1..], permit)
    ensures BookEach(s, self, taker, ids, amounts, permit, book) == BookEach(t, self, taker, ids[1..], amounts[1..], permit, one)
    ensures EachFees(s, self, taker, ids, amounts, permit, k) == fee + EachFees(t, self, taker, ids[1..], amounts[1..], permit, k)
    ensures Solvent(t, self) && Account(s, book, t, one, fee, self, k)
  {
    t, one := Unroll(s, self, taker, ids, amounts, permit, book);
    fee := UnrollFees(s, self, taker, ids, amounts, permit, k, t);
    FillKeepsAccount(s, self, taker, ids[0], amounts[0], permit, t, book, one, fee, k);
  }

  lemma {:induction false} FillsKeepAccount(s: System, self: Address, taker: Address, ids: seq<nat>, amounts: seq<int>, permit: bool,
                                            book: Book, k: Address, u: System, after: Book, fees: int)
    requires Solvent(s, self) && taker != self && |ids| == |amounts| && Kept(s.store, book)
    requires FillEach(s, self, taker, ids, amounts, permit) == Committed(u)
    requires BookEach(s, self, taker, ids, amounts, permit, book) == after && EachFees(s, self, taker, ids, amounts, permit, k) == fees
    ensures Account(s, book, u, after, fees, self, k)
    decreases |ids|
  {
    if ids != [] {
      var t, one, fee := FirstAccount(s, self, taker, ids, amounts, permit, book, k);
      FillsKeepAccount(t, self, taker, ids[1..], amounts[1..], permit, one, k, u, after, fees - fee);
    }
  }

  /** What an order brings into escrow. */
  function Escrow(c: Call): (Address, int)
    requires c.CallCreate?
  {
    if c.side.Sell? then (c.credit, c.amount) else (c.payment, Worth(c.amount, c.price))
  }

  lemma CreateShape(s: System, self: Address, c: Call, t: System)
    requires Proper(s.store, self) && c.CallCreate? && Step(s, self, c) == Committed(t)
    ensures 0 <= Escrow(c).1 && PayIfPositive(s.bank, Escrow(c).0, c.maker, self, Escrow(c).1, c.permit) == Committed(t.bank)
    ensures
      var id := s.store.orderCount + 1;
      && id !in s.store.orders && id in t.store.orders && t.store.orders == s.store.orders[id := t.store.orders[id]]
      && forall k :: Liability(t.store.orders[id], k) == if k == Escrow(c).0 then Escrow(c).1 else 0
  {
    MulMono2(1, c.price, c.amount, c.amount);
  }

  lemma CreateKeepsAccount(s: System, self: Address, c: Call, book: Book, k: Address)
    requires Solvent(s, self) && c.CallCreate? && Outsider(c, self) && Step(s, self, c).Committed? && Kept(s.store, book)
    ensures Kept(Next(s, self, c).store, StepBook(s, self, c, book))
    ensures Surplus(Next(s, self, c), self, k) == Surplus(s, self, k)
    ensures DustIn(Next(s, self, c).store, StepBook(s, self, c, book), k) == DustIn(s.store, book, k)
  {
    var t, id := Next(s, self, c), s.store.orderCount + 1;
    CreateShape(s, self, c, t);
    EscrowKeepsSurplus(s, t, self, c, id, k);
    NewEntry(s.store.orders, book, id, t.store.orders[id], k);
  }

  lemma EscrowKeepsSurplus(s: System, t: System, self: Address, c: Call, id: nat, k: Address)
    requires c.CallCreate? && c.maker != self && id !in s.store.orders && id in t.store.orders
    requires 0 <= Escrow(c).1 && PayIfPositive(s.bank, Escrow(c).0, c.maker, self, Escrow(c).1, c.permit) == Committed(t.bank)
    requires t.store.orders == s.store.orders[id := t.store.orders[id]]
    requires Liability(t.store.orders[id], k) == if k == Escrow(c).0 then Escrow(c).1 else 0
    ensures Surplus(t, self, k) == Surplus(s, self, k)
  {
    PayEffect(s.bank, Escrow(c).0, c.maker, self, Escrow(c).1, c.permit, k, self);
    OwedUpdate(s.store, id, t.store.orders[id], k);
    assert Liabilities(t.store, k) == Liabilities(s.store.(orders := t.store.orders), k);
  }

  lemma NewEntry(orders: map<nat, Order>, book: Book, id: nat, o: Order, k: Address)
    requires id !in orders && id !in book && book.Keys == orders.Keys
    ensures Total(EntriesIn(orders[id := o], book[id := 0], k)) == Total(EntriesIn(orders, book, k))
  {
    var m := EntriesIn(orders, book, k);
    if o.payment == k {
      assert EntriesIn(orders[id := o], book[id := 0], k) == m[id := 0];
      TotalUpdate(m, id, 0);
    } else {
      assert EntriesIn(orders[id := o], book[id := 0], k) == m;
    }
  }

  lemma CancelKeepsAccount(s: System, self: Address, c: Call, book: Book, k: Address)
    requires Solvent(s, self) && c.CallCancel? && Step(s, self, c).Committed? && Kept(s.store, book)
    ensures Kept(Next(s, self, c).store, book)
    ensures Surplus(Next(s, self, c), self, k) == Surplus(s, self, k)
    ensures DustIn(Next(s, self, c).store, book, k) == DustIn(s.store, book, k)
  {
    CancelShape(s, self, c);
    RefundKeepsSurplus(s, Next(s, self, c), self, c, k);
    assert EntriesIn(Next(s, self, c).store.orders, book, k) == EntriesIn(s.store.orders, book, k);
  }

  lemma RefundKeepsSurplus(s: System, t: System, self: Address, c: Call, k: Address)
    requires c.CallCancel? && c.maker != self && c.id in s.store.orders && s.store.orders[c.id].Live()
    requires t.store.orders == s.store.orders[c.id := s.store.orders[c.id].(status := Cancelled)]
    requires
      var o := s.store.orders[c.id];
      var refund := if o.side.Sell? then (o.credit, o.Remaining()) else (o.payment, Worth(o.Remaining(), o.price));
      0 < refund.1 && PayIfPositive(s.bank, refund.0, self, c.maker, refund.1, c.permit) == Committed(t.bank)
    ensures Surplus(t, self, k) == Surplus(s, self, k)
  {
    var o := s.store.orders[c.id];
    var refund := if o.side.Sell? then (o.credit, o.Remaining()) else (o.payment, Worth(o.Remaining(), o.price));
    PayEffect(s.bank, refund.0, self, c.maker, refund.1, c.permit, k, self);
    OwedUpdate(s.store, c.id, o.(status := Cancelled), k);
    assert Liabilities(t.store, k) == Liabilities(s.store.(orders := t.store.orders), k);
  }

  lemma OtherKeepsAccount(s: System, self: Address, c: Call, book: Book, k: Address)
    requires Solvent(s, self) && Outsider(c, self) && Step(s, self, c).Committed? && Kept(s.store, book)
    requires c.CallSetFee? || c.CallSetPaused? || c.CallTransfer?
    ensures Kept(Next(s, self, c).store, book)
    ensures Surplus(Next(s, self, c), self, k) == Surplus(s, self, k) + Income(s, self, c, k)
    ensures DustIn(Next(s, self, c).store, book, k) == DustIn(s.store, book, k)
  {
    assert Next(s, self, c).store.orders == s.store.orders;
    assert Liabilities(Next(s, self, c).store, k) == Liabilities(s.store, k);
    if c.CallTransfer? && c.amount > 0 {
      PayEffect(s.bank, c.token, c.from, c.to, c.amount, true, k, self);
    }
  }

  lemma FillCallKeepsAccount(s: System, self: Address, c: Call, book: Book, k: Address)
    requires Solvent(s, self) && (c.CallFill? || c.CallBatchFill?) && Outsider(c, self) && Step(s, self, c).Committed? && Kept(s.store, book)
    ensures
      var t, after := Next(s, self, c), StepBook(s, self, c, book);
      && Kept(t.store, after)
      && Surplus(t, self, k) - DustIn(t.store, after, k) == Surplus(s, self, k) - DustIn(s.store, book, k) + Income(s, self, c, k)
  {
    if c.CallFill? {
      assert [c.id][1..] == [] && [c.amount][1..] == [];
      var t := FillOne(s, self, c.taker, c.id, c.amount, c.permit);
      assert FillEach(t.value, self, c.taker, [], [], c.permit) == Committed(t.value);
      assert FillEach(s, self, c.taker, [c.id], [c.amount], c.permit) == t;
      FillsKeepAccount(s, self, c.taker, [c.id], [c.amount], c.permit, book, k, t.value,
                       StepBook(s, self, c, book), Income(s, self, c, k));
    } else {
      FillsKeepAccount(s, self, c.taker, c.ids, c.amounts, c.permit, book, k, Next(s, self, c),
                       StepBook(s, self, c, book), Income(s, self, c, k));
    }
  }

  lemma StepKeepsAccount(s: System, self: Address, c: Call, book: Book, k: Address)
    requires Solvent(s, self) && Outsider(c, self) && Kept(s.store, book)
    ensures
      var t, after := Next(s, self, c), StepBook(s, self, c, book);
      && Kept(t.store, after)
      && Surplus(t, self, k) - DustIn(t.store, after, k) == Surplus(s, self, k) - DustIn(s.store, book, k) + Income(s, self, c, k)
  {
    if Step(s, self, c).Committed? {
      match c
      case CallCreate(_, _, _, _, _, _, _, _) => CreateKeepsAccount(s, self, c, book, k);
      case CallFill(_, _, _, _) => FillCallKeepsAccount(s, self, c, book, k);
      case CallBatchFill(_, _, _, _) => FillCallKeepsAccount(s, self, c, book, k);
      case CallCancel(_, _, _) => CancelKeepsAccount(s, self, c, book, k);
      case _ => OtherKeepsAccount(s, self, c, book, k);
    }
  }

  lemma {:induction false} RunKeepsAccount(s: System, self: Address, calls: seq<Call>, k: Address)
    requires Solvent(s, self) && s.store.orders == map[]
    requires forall i :: 0 <= i < |calls| ==> Outsider(calls[i], self)
    ensures Kept(Run(s, self, calls).store, RunBook(s, self, calls))
    ensures Surplus(Run(s, self, calls), self, k) - DustIn(Run(s, self, calls).store, RunBook(s, self, calls), k)
         == Surplus(s, self, k) + RunIncome(s, self, calls, k)
  {
    if calls == [] {
      assert EntriesIn(map[], map[], k) == map[];
    } else {
      var front := calls[..|calls| - 1];
      RunKeepsAccount(s, self, front, k);
      EscrowSolvency(s, self, front);
      StepKeepsAccount(Run(s, self, front), self, calls[|calls| - 1], RunBook(s, self, front), k);
    }
  }

  // ---- The book is the dust of the orders ----

  lemma {:induction false} FillWorthAppend(a: seq<int>, b: seq<int>, price: int)
    ensures FillWorth(a + b, price) == FillWorth(a, price) + FillWorth(b, price)
  {
    if b == [] {
      assert a + b == a;
    } else {
      var n := |b| - 1;
      FillWorthAppend(a, b[..n], price);
      assert (a + b)[..|a + b| - 1] == a + b[..n];
    }
  }

  /** Between `s` and `t` the entry of order `id` grew by the dust of `fills`. */
  ghost predicate EntryGrew(s: Storage, book: Book, t: Storage, after: Book, id: nat, fills: seq<int>)
    requires id in s.orders && id in book
  {
    && id in t.orders && id in after && SameTerms(s.orders[id], t.orders[id])
    && var o := s.orders[id];
    && after[id] == book[id] + if o.side.Sell? then 0
         else Worth(o.Remaining(), o.price) - FillWorth(fills, o.price) - Worth(t.orders[id].Remaining(), o.price)
  }

  lemma EntryGrewTwice(s: Storage, book: Book, t: Storage, mid: Book, u: Storage, after: Book, id: nat, a: seq<int>, b: seq<int>)
    requires id in s.orders && id in book && EntryGrew(s, book, t, mid, id, a) && EntryGrew(t, mid, u, after, id, b)
    ensures EntryGrew(s, book, u, after, id, a + b)
  {
    FillWorthAppend(a, b, s.orders[id].price);
  }

  lemma OneEntry(s: System, self: Address, taker: Address, first: nat, amount: int, permit: bool, t: System, book: Book, after: Book, id: nat)
    requires id in s.store.orders && id in book && first in s.store.orders
    requires FillOne(s, self, taker, first, amount, permit) == Committed(t)
    requires after == book[first := Get(book, first) + FillDust(s.store.orders[first], amount)]
    ensures EntryGrew(s.store, book, t.store, after, id, if first == id then [amount] else [])
  {
    FillShape(s, self, taker, first, amount, permit);
    assert [amount][..0] == [];
    assert FillWorth([amount], s.store.orders[id].price) == Worth(amount, s.store.orders[id].price);
  }

  function FirstFill(ids: seq<nat>, amounts: seq<int>, id: nat): seq<int>
    requires |ids| == |amounts| != 0
  {
    if ids[0] == id then [amounts[0]] else []
  }

  lemma FirstEntry(s: System, self: Address, taker: Address, ids: seq<nat>, amounts: seq<int>, permit: bool, book: Book, id: nat)
    returns (t: System, one: Book)
    requires |ids| == |amounts| != 0 && id in s.store.orders && id in book
    requires FillEach(s, self, taker, ids, amounts, permit).Committed?
    ensures FillEach(s, self, taker, ids, amounts, permit) == FillEach(t, self, taker, ids[1..], amounts[1..], permit)
    ensures BookEach(s, self, taker, ids, amounts, permit, book) == BookEach(t, self, taker, ids[1..], amounts[1..], permit, one)
    ensures EntryGrew(s.store, book, t.store, one, id, FirstFill(ids, amounts, id))
  {
    t, one := Unroll(s, self, taker, ids, amounts, permit, book);
    OneEntry(s, self, taker, ids[0], amounts[0], permit, t, book, one, id);
  }

  /** What a batch adds to one order's entry. */
  lemma {:induction false} BatchEntry(s: System, self: Address, taker: Address, ids: seq<nat>, amounts: seq<int>, permit: bool,
                                      book: Book, id: nat, u: System, after: Book)
    requires |ids| == |amounts| && id in s.store.orders && id in book
    requires FillEach(s, self, taker, ids, amounts, permit) == Committed(u)
    requires BookEach(s, self, taker, ids, amounts, permit, book) == after
    ensures EntryGrew(s.store, book, u.store, after, id, BatchFillsOf(ids, amounts, id))
    decreases |ids|
  {
    if ids != [] {
      var t, one := FirstEntry(s, self, taker, ids, amounts, permit, book, id);
      BatchEntry(t, self, taker, ids[1..], amounts[1..], permit, one, id, u, after);
      EntryGrewTwice(s.store, book, t.store, one, u.store, after, id, FirstFill(ids, amounts, id), BatchFillsOf(ids[1..], amounts[1..], id));
    }
  }

  /** The dust of an order as far as it is filled; selling leaves none. */
  function DustOf(o: Order, fills: seq<int>): int {
    if o.side.Sell? then 0 else Dust(o, fills)
  }

  lemma FillEntry(s: System, self: Address, c: Call, book: Book, id: nat)
    requires (c.CallFill? || c.CallBatchFill?) && Step(s, self, c).Committed? && id in s.store.orders && id in book
    ensures
      var t, after, o := Next(s, self, c).store, StepBook(s, self, c, book), s.store.orders[id];
      && id in t.orders && id in after && SameTerms(o, t.orders[id])
      && after[id] == book[id] + if o.side.Sell? then 0
           else Worth(o.Remaining(), o.price) - FillWorth(StepFills(s, self, c, id), o.price) - Worth(t.orders[id].Remaining(), o.price)
  {
    if c.CallFill? {
      assert [c.id][1..] == [] && [c.amount][1..] == [];
      var t := FillOne(s, self, c.taker, c.id, c.amount, c.permit);
      assert FillEach(t.value, self, c.taker, [], [], c.permit) == Committed(t.value);
      assert FillEach(s, self, c.taker, [c.id], [c.amount], c.permit) == t;
      BatchEntry(s, self, c.taker, [c.id], [c.amount], c.permit, book, id, t.value, StepBook(s, self, c, book));
      assert BatchFillsOf([], [], id) == [];
      assert BatchFillsOf([c.id], [c.amount], id) == StepFills(s, self, c, id);
    } else {
      BatchEntry(s, self, c.taker, c.ids, c.amounts, c.permit, book, id, Next(s, self, c), StepBook(s, self, c, book));
    }
  }

  lemma OtherEntry(s: System, self: Address, c: Call, book: Book, id: nat)
    requires !c.CallFill? && !c.CallBatchFill? && Proper(s.store, self) && id in s.store.orders && id in book
    ensures StepFills(s, self, c, id) == []
    ensures
      var t, after, o := Next(s, self, c).store, StepBook(s, self, c, book), s.store.orders[id];
      && id in t.orders && id in after && SameTerms(o, t.orders[id]) && t.orders[id].filled == o.filled && after[id] == book[id]
  {
  }

  lemma StepEntry(s: System, self: Address, c: Call, book: Book, id: nat, fills: seq<int>)
    requires Proper(s.store, self) && id in s.store.orders && id in book && book[id] == DustOf(s.store.orders[id], fills)
    ensures
      var t, after := Next(s, self, c).store, StepBook(s, self, c, book);
      id in t.orders && id in after && after[id] == DustOf(t.orders[id], fills + StepFills(s, self, c, id))
  {
    if Step(s, self, c).Committed? {
      FillWorthAppend(fills, StepFills(s, self, c, id), s.store.orders[id].price);
      if c.CallFill? || c.CallBatchFill? {
        FillEntry(s, self, c, book, id);
      } else {
        OtherEntry(s, self, c, book, id);
      }
    } else {
      assert fills + [] == fills;
    }
  }

  lemma NewOrderEntry(s: System, self: Address, c: Call, book: Book, id: nat)
    requires Proper(s.store, self) && id !in s.store.orders && id in Next(s, self, c).store.orders
    ensures id in StepBook(s, self, c, book)
    ensures StepBook(s, self, c, book)[id] == DustOf(Next(s, self, c).store.orders[id], []) == 0
    ensures StepFills(s, self, c, id) == [] && Next(s, self, c).store.orders[id].filled == 0
  {
    if c.CallBatchFill? && Step(s, self, c).Committed? {
      FillEachCreatesNothing(s, self, c.taker, c.ids, c.amounts, c.permit);
      assert false;
    }
  }

  lemma {:induction false} FillEachCreatesNothing(s: System, self: Address, taker: Address, ids: seq<nat>, amounts: seq<int>, permit: bool)
    requires |ids| == |amounts| && FillEach(s, self, taker, ids, amounts, permit).Committed?
    ensures FillEach(s, self, taker, ids, amounts, permit).value.store.orders.Keys == s.store.orders.Keys
    decreases |ids|
  {
    if ids != [] {
      FillShape(s, self, taker, ids[0], amounts[0], permit);
      FillEachCreatesNothing(FillOne(s, self, taker, ids[0], amounts[0], permit).value, self, taker, ids[1..], amounts[1..], permit);
    }
  }

  /** No fills before the order exists. */
  lemma {:induction false} NoFillsBefore(s: System, self: Address, calls: seq<Call>, id: nat)
    requires Solvent(s, self) && id !in Run(s, self, calls).store.orders
    requires forall i :: 0 <= i < |calls| ==> Outsider(calls[i], self)
    ensures FillsOf(s, self, calls, id) == []
  {
    if calls != [] {
      var front, c := calls[..|calls| - 1], calls[|calls| - 1];
      var b := Run(s, self, front);
      EscrowSolvency(s, self, front);
      if id in b.store.orders {
        StepFilled(b, self, c, id);
        assert false;
      }
      NoFillsBefore(s, self, front, id);
      NotFilled(b, self, c, id);
    }
  }

  lemma NotFilled(s: System, self: Address, c: Call, id: nat)
    requires id !in s.store.orders
    ensures StepFills(s, self, c, id) == []
  {
    if c.CallBatchFill? && Step(s, self, c).Committed? {
      NotInBatch(s, self, c.taker, c.ids, c.amounts, c.permit, id);
    }
  }

  lemma {:induction false} NotInBatch(s: System, self: Address, taker: Address, ids: seq<nat>, amounts: seq<int>, permit: bool, id: nat)
    requires |ids| == |amounts| && FillEach(s, self, taker, ids, amounts, permit).Committed? && id !in s.store.orders
    ensures BatchFillsOf(ids, amounts, id) == []
    decreases |ids|
  {
    if ids != [] {
      FillShape(s, self, taker, ids[0], amounts[0], permit);
      NotInBatch(FillOne(s, self, taker, ids[0], amounts[0], permit).value, self, taker, ids[1..], amounts[1..], permit, id);
    }
  }

  lemma {:induction false} BookIsDust(s: System, self: Address, calls: seq<Call>, id: nat)
    requires Solvent(s, self) && s.store.orders == map[] && id in Run(s, self, calls).store.orders
    requires forall i :: 0 <= i < |calls| ==> Outsider(calls[i], self)
    ensures id in RunBook(s, self, calls)
    ensures RunBook(s, self, calls)[id] == DustOf(Run(s, self, calls).store.orders[id], FillsOf(s, self, calls, id))
  {
    var front, c := calls[..|calls| - 1], calls[|calls| - 1];
    var b := Run(s, self, front);
    EscrowSolvency(s, self, front);
    if id in b.store.orders {
      BookIsDust(s, self, front, id);
      StepEntry(b, self, c, RunBook(s, self, front), id, FillsOf(s, self, front, id));
    } else {
      NoFillsBefore(s, self, front, id);
      NewOrderEntry(b, self, c, RunBook(s, self, front), id);
    }
  }

  /** The whole account: of every token, in every run of a new market, it holds
  exactly what its open orders are owed, the dust of its buy orders paid in that
  token, what it held at the start, and fees and gifts it received; and the dust
  of an order is between 0 and its number of fills, one less once it is filled. */
  lemma HoldingsAreAccountedFor(s: System, self: Address, calls: seq<Call>, k: Address)
    requires Solvent(s, self) && s.store.orders == map[]
    requires forall i :: 0 <= i < |calls| ==> Outsider(calls[i], self)
    ensures
      var t, book := Run(s, self, calls), RunBook(s, self, calls);
      && Holding(t.bank, k, self)
         == Owed(t.store, k) + DustIn(t.store, book, k) + Holding(s.bank, k, self) + RunIncome(s, self, calls, k)
      && book.Keys == t.store.orders.Keys
      && forall id :: id in book ==>
           var o, fills := t.store.orders[id], FillsOf(s, self, calls, id);
           && book[id] == DustOf(o, fills)
           && 0 <= book[id] <= |fills|
           && (o.filled == o.amount && o.side.Buy? ==> book[id] <= |fills| - 1)
  {
    RunKeepsAccount(s, self, calls, k);
    assert Liabilities(s.store, k) == map[];
    var t, book := Run(s, self, calls), RunBook(s, self, calls);
    EscrowSolvency(s, self, calls);
    forall id | id in book
      ensures
        var o, fills := t.store.orders[id], FillsOf(s, self, calls, id);
        && book[id] == DustOf(o, fills) && 0 <= book[id] <= |fills|
        && (o.filled == o.amount && o.side.Buy? ==> book[id] <= |fills| - 1)
    {
      BookIsDust(s, self, calls, id);
      FilledFromNothing(s, self, calls, id);
      DustOfOrder(t.store.orders[id], FillsOf(s, self, calls, id));
    }
  }

  lemma {:induction false} FilledFromNothing(s: System, self: Address, calls: seq<Call>, id: nat)
    requires Solvent(s, self) && s.store.orders == map[] && id in Run(s, self, calls).store.orders
    requires forall i :: 0 <= i < |calls| ==> Outsider(calls[i], self)
    ensures Run(s, self, calls).store.orders[id].filled == FillSum(FillsOf(s, self, calls, id))
  {
    var front, c := calls[..|calls| - 1], calls[|calls| - 1];
    var b := Run(s, self, front);
    EscrowSolvency(s, self, front);
    if id in b.store.orders {
      FilledFromNothing(s, self, front, id);
      StepFilled(b, self, c, id);
      FillSumAppend(FillsOf(s, self, front, id), StepFills(b, self, c, id));
    } else {
      NoFillsBefore(s, self, front, id);
      NewOrderEntry(b, self, c, map[], id);
    }
  }
}
