/** The credit token: its storage and what every entry point does to it. */
module TokenSpec {
  import opened Numeric
  import opened Transactions
  import opened Sums

  datatype Certificate = Certificate(retiree: Address, project: ProjectId, amount: int, purpose: string,
                                     timestamp: nat, uri: string, recordId: Option<nat>)

  datatype Allowance = Allowance(amount: int, expiration: nat)

  /** Everything an administrator may change. */
  datatype Settings = Settings(admin: Address, minter: Option<Address>, bridge: Option<Address>,
                               registry: Option<Address>, requireRegistry: bool, paused: bool, maxSupply: int)

  datatype Storage = Storage(
    cfg: Settings, project: ProjectId,
    balances: map<Address, int>, allowances: map<(Address, Address), Allowance>,
    totalSupply: int, totalRetired: int, totalBurned: int, everMinted: int, bridgedToEvm: int,
    certs: map<nat, Certificate>, certCount: nat)

  function Init(admin: Address, project: ProjectId): Storage {
    Storage(Settings(admin, None, None, None, false, false, 0), project,
            map[], map[], 0, 0, 0, 0, 0, map[], 0)
  }

  function Balance(s: Storage, a: Address): int {
    Get(s.balances, a)
  }

  /** The minter defaults to the admin; the admin may always mint. */
  predicate MayMint(s: Storage, caller: Address) {
    caller == s.cfg.admin || s.cfg.minter == Some(caller)
  }

  predicate IsBridge(s: Storage, caller: Address) {
    s.cfg.bridge == Some(caller)
  }

  /** The cap of `mint_to` counts what is locked for the other chain. */
  predicate UnderMintCap(s: Storage, amount: int) {
    s.cfg.maxSupply > 0 ==>
      && IsI128(s.totalSupply + s.bridgedToEvm)
      && IsI128(s.totalSupply + s.bridgedToEvm + amount)
      && s.totalSupply + s.bridgedToEvm + amount <= s.cfg.maxSupply
  }

  function MintTo(s: Storage, minter: Address, to: Address, amount: int): Txn<Storage> {
    if amount <= 0 then Reverted
    else
      :- Require(!s.cfg.paused);
      :- Require(MayMint(s, minter));
      :- Require(UnderMintCap(s, amount));
      :- Require(IsBridge(s, minter) ==> amount <= s.bridgedToEvm);
      var balance :- Checked(Balance(s, to) + amount);
      var supply :- Checked(s.totalSupply + amount);
      var minted :- Checked(s.everMinted + amount);
      Committed(s.(bridgedToEvm := if IsBridge(s, minter) then s.bridgedToEvm - amount else s.bridgedToEvm,
                   balances := s.balances[to := balance], totalSupply := supply, everMinted := minted))
  }

  /** The cap of a batch ignores what is locked for the other chain. */
  function MintOne(s: Storage, to: Address, amount: int): Txn<Storage> {
    if amount <= 0 then Reverted
    else
      :- Require(s.cfg.maxSupply > 0 ==> IsI128(s.totalSupply + amount) && s.totalSupply + amount <= s.cfg.maxSupply);
      var balance :- Checked(Balance(s, to) + amount);
      var supply :- Checked(s.totalSupply + amount);
      var minted :- Checked(s.everMinted + amount);
      Committed(s.(balances := s.balances[to := balance], totalSupply := supply, everMinted := minted))
  }

  function MintEach(s: Storage, recipients: seq<Address>, amounts: seq<int>): Txn<Storage>
    requires |recipients| == |amounts|
    decreases |recipients|
  {
    if recipients == [] then Committed(s)
    else
      var t :- MintOne(s, recipients[0], amounts[0]);
      MintEach(t, recipients[1..], amounts[1..])
  }

  function BatchMintTo(s: Storage, minter: Address, recipients: seq<Address>, amounts: seq<int>): Txn<Storage> {
    if |recipients| != |amounts| then Reverted
    else
      :- Require(recipients != []);
      :- Require(!s.cfg.paused);
      :- Require(MayMint(s, minter));
      MintEach(s, recipients, amounts)
  }

  /** Take `amount` out of circulation and count it as burned. */
  function Destroy(s: Storage, from: Address, amount: int): Txn<Storage> {
    if amount > Balance(s, from) then Reverted
    else
      var burned :- Checked(s.totalBurned + amount);
      Committed(s.(balances := s.balances[from := Balance(s, from) - amount],
                   totalSupply := Wrap128(s.totalSupply - amount), totalBurned := burned))
  }

  /** The bridge may burn only from itself; anyone else must be the admin. */
  function Burn(s: Storage, caller: Address, from: Address, amount: int): Txn<Storage> {
    if amount <= 0 then Reverted
    else
      :- Require(if IsBridge(s, caller) then from == caller else caller == s.cfg.admin);
      var t :- Destroy(s, from, amount);
      if IsBridge(s, caller) then
        var bridged :- Checked(t.bridgedToEvm + amount);
        Committed(t.(bridgedToEvm := bridged))
      else
        Committed(t)
  }

  function BurnWithReason(s: Storage, admin: Address, from: Address, amount: int): Txn<Storage> {
    if amount <= 0 then Reverted
    else
      :- Require(admin == s.cfg.admin);
      Destroy(s, from, amount)
  }

  /** Both balances are read before either is written. */
  function Move(balances: map<Address, int>, from: Address, to: Address, amount: int): Txn<map<Address, int>> {
    if amount > Get(balances, from) then Reverted
    else
      var credited :- Checked(Get(balances, to) + amount);
      Committed(balances[from := Get(balances, from) - amount][to := credited])
  }

  function Transfer(s: Storage, from: Address, to: Address, amount: int): Txn<Storage> {
    if amount <= 0 then Reverted
    else
      :- Require(!s.cfg.paused);
      var balances :- Move(s.balances, from, to, amount);
      Committed(s.(balances := balances))
  }

  function CreditEach(balances: map<Address, int>, recipients: seq<Address>, amounts: seq<int>): Txn<map<Address, int>>
    requires |recipients| == |amounts|
    decreases |recipients|
  {
    if recipients == [] then Committed(balances)
    else
      var credited :- Checked(Get(balances, recipients[0]) + amounts[0]);
      CreditEach(balances[recipients[0] := credited], recipients[1..], amounts[1..])
  }

  /** The sender is debited the whole sum before anyone is credited. */
  function BatchTransfer(s: Storage, from: Address, recipients: seq<Address>, amounts: seq<int>): Txn<Storage> {
    if |recipients| != |amounts| then Reverted
    else
      :- Require(recipients != []);
      :- Require(!s.cfg.paused);
      :- Require(AllPositive(amounts));
      var total :- Checked(SeqSum(amounts));
      :- Require(total <= Balance(s, from));
      var balances :- CreditEach(s.balances[from := Balance(s, from) - total], recipients, amounts);
      Committed(s.(balances := balances))
  }

  function Granted(s: Storage, from: Address, spender: Address): Allowance {
    if (from, spender) in s.allowances then s.allowances[(from, spender)] else Allowance(0, 0)
  }

  function TransferFrom(s: Storage, spender: Address, from: Address, to: Address, amount: int, ledger: nat): Txn<Storage> {
    if amount <= 0 then Reverted
    else
      :- Require(!s.cfg.paused);
      var grant := Granted(s, from, spender);
      :- Require(amount <= grant.amount);
      :- Require(grant.expiration > 0 ==> ledger < grant.expiration);
      var balances :- Move(s.balances, from, to, amount);
      Committed(s.(allowances := s.allowances[(from, spender) := grant.(amount := grant.amount - amount)],
                   balances := balances))
  }

  function Approve(s: Storage, from: Address, spender: Address, amount: int, expiration: nat, ledger: nat): Txn<Storage> {
    if amount < 0 then Reverted
    else
      :- Require(expiration > 0 ==> ledger <= expiration);
      Committed(s.(allowances := s.allowances[(from, spender) := Allowance(amount, expiration)]))
  }

  /** `reply` is the registry's answer: a record id, or nothing if it panicked. */
  function Retire(s: Storage, holder: Address, amount: int, purpose: string, uri: string,
                  now: nat, reply: Option<nat>): Txn<(Storage, Certificate)> {
    if amount <= 0 then Reverted
    else
      :- Require(!s.cfg.paused);
      :- Require(amount <= Balance(s, holder));
      :- Require(s.cfg.registry.None? ==> !s.cfg.requireRegistry);
      :- Require(s.cfg.registry.Some? ==> reply.Some?);
      var cert := Certificate(holder, s.project, amount, purpose, now, uri,
                              if s.cfg.registry.Some? then reply else None);
      Committed((s.(balances := s.balances[holder := Balance(s, holder) - amount],
                    totalSupply := Wrap128(s.totalSupply - amount),
                    totalRetired := Wrap128(s.totalRetired + amount),
                    certs := s.certs[s.certCount := cert], certCount := s.certCount + 1), cert))
  }

  // ---- Runs ----

  datatype Call =
    | CallMintTo(minter: Address, to: Address, amount: int)
    | CallBatchMintTo(minter: Address, recipients: seq<Address>, amounts: seq<int>)
    | CallBurn(caller: Address, from: Address, amount: int)
    | CallBurnWithReason(admin: Address, from: Address, amount: int)
    | CallTransfer(from: Address, to: Address, amount: int)
    | CallBatchTransfer(from: Address, recipients: seq<Address>, amounts: seq<int>)
    | CallTransferFrom(spender: Address, from: Address, to: Address, amount: int, ledger: nat)
    | CallApprove(from: Address, spender: Address, amount: int, expiration: nat, ledger: nat)
    | CallRetire(holder: Address, amount: int, purpose: string, uri: string, now: nat, reply: Option<nat>)
      /** Any of the administrative setters, alone or several at once. */
    | CallConfigure(cfg: Settings)

  function Step(s: Storage, c: Call): Txn<Storage> {
    match c
    case CallMintTo(minter, to, amount) => MintTo(s, minter, to, amount)
    case CallBatchMintTo(minter, recipients, amounts) => BatchMintTo(s, minter, recipients, amounts)
    case CallBurn(caller, from, amount) => Burn(s, caller, from, amount)
    case CallBurnWithReason(admin, from, amount) => BurnWithReason(s, admin, from, amount)
    case CallTransfer(from, to, amount) => Transfer(s, from, to, amount)
    case CallBatchTransfer(from, recipients, amounts) => BatchTransfer(s, from, recipients, amounts)
    case CallTransferFrom(spender, from, to, amount, ledger) => TransferFrom(s, spender, from, to, amount, ledger)
    case CallApprove(from, spender, amount, expiration, ledger) => Approve(s, from, spender, amount, expiration, ledger)
    case CallRetire(holder, amount, purpose, uri, now, reply) =>
      var r :- Retire(s, holder, amount, purpose, uri, now, reply);
      Committed(r.0)
    case CallConfigure(cfg) =>
      :- Require(0 <= cfg.maxSupply);
      Committed(s.(cfg := cfg))
  }

  /** A call that reverts leaves the storage as it was. */
  function Next(s: Storage, c: Call): Storage {
    var r := Step(s, c);
    if r.Committed? then r.value else s
  }

  function Run(s: Storage, calls: seq<Call>): Storage {
    if calls == [] then s else Next(Run(s, calls[..|calls| - 1]), calls[|calls| - 1])
  }

  lemma RunPush(s: Storage, calls: seq<Call>, c: Call)
    ensures Run(s, calls + [c]) == Next(Run(s, calls), c)
  {
    assert (calls + [c])[..|calls|] == calls;
  }
}
