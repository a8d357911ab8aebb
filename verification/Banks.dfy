/** Balances kept by token contracts, as seen by the contracts that call them. */
module Banks {
  import opened Transactions
  import opened Sums

  /** Who holds how much of which token. */
  type Bank = map<(Address, Address), int>

  function Holding(bank: Bank, token: Address, who: Address): int {
    Get(bank, (token, who))
  }

  /** A transfer by a conserving token: the sender is debited, then the receiver
  credited. `permit` stands for whatever else the token asks for, such as an
  allowance. */
  function Pay(bank: Bank, token: Address, from: Address, to: Address, amount: int, permit: bool): Txn<Bank> {
    if !permit then Reverted
    else
      :- Require(amount <= Holding(bank, token, from));
      var debited := bank[(token, from) := Holding(bank, token, from) - amount];
      Committed(debited[(token, to) := Holding(debited, token, to) + amount])
  }

  function PayIfPositive(bank: Bank, token: Address, from: Address, to: Address, amount: int, permit: bool): Txn<Bank> {
    if amount > 0 then Pay(bank, token, from, to, amount, permit) else Committed(bank)
  }

  /** A payment moves the amount from one account to the other and changes no
  other holding of any token. */
  lemma PayEffect(bank: Bank, token: Address, from: Address, to: Address, amount: int, permit: bool, k: Address, who: Address)
    requires PayIfPositive(bank, token, from, to, amount, permit).Committed? && 0 <= amount
    ensures
      var after := PayIfPositive(bank, token, from, to, amount, permit).value;
      Holding(after, k, who) == Holding(bank, k, who)
        - (if k == token && who == from then amount else 0) + (if k == token && who == to then amount else 0)
  {
  }

  // ---- A token conserves its supply ----

  function Accounts(bank: Bank, token: Address): map<(Address, Address), int> {
    map k | k in bank && k.0 == token :: bank[k]
  }

  ghost function Supply(bank: Bank, token: Address): int {
    Total(Accounts(bank, token))
  }

  ghost predicate NoDebts(bank: Bank) {
    forall k :: k in bank ==> 0 <= bank[k]
  }

  lemma SupplyUpdate(bank: Bank, k: (Address, Address), v: int, token: Address)
    ensures Supply(bank[k := v], token) == Supply(bank, token) + if k.0 == token then v - Get(bank, k) else 0
  {
    if k.0 == token {
      assert Accounts(bank[k := v], token) == Accounts(bank, token)[k := v];
      TotalUpdate(Accounts(bank, token), k, v);
    } else {
      assert Accounts(bank[k := v], token) == Accounts(bank, token);
    }
  }

  lemma PayConserves(bank: Bank, token: Address, from: Address, to: Address, amount: int, permit: bool, k: Address)
    requires PayIfPositive(bank, token, from, to, amount, permit).Committed? && 0 <= amount && NoDebts(bank)
    ensures NoDebts(PayIfPositive(bank, token, from, to, amount, permit).value)
    ensures Supply(PayIfPositive(bank, token, from, to, amount, permit).value, k) == Supply(bank, k)
  {
    var debited := bank[(token, from) := Holding(bank, token, from) - amount];
    SupplyUpdate(bank, (token, from), Holding(bank, token, from) - amount, k);
    SupplyUpdate(debited, (token, to), Holding(debited, token, to) + amount, k);
  }

  lemma HoldingWithinSupply(bank: Bank, token: Address, who: Address)
    requires NoDebts(bank)
    ensures 0 <= Holding(bank, token, who) <= Supply(bank, token)
  {
    TotalAtLeast(Accounts(bank, token), (token, who));
  }
}
