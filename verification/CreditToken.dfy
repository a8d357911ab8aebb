/** The credit token contract, entry point by entry point. */
module CreditToken {
  import opened Numeric
  import opened Transactions
  import opened Sums
  import Spec = TokenSpec

  /** A contract instance. `store` is its ledger storage, which the host restores
  when a call panics. Callers are taken to have authorized the call. */
  class Token {
    var store: Spec.Storage

    constructor (admin: Address, project: ProjectId)
      ensures store == Spec.Init(admin, project)
    {
      store := Spec.Init(admin, project);
    }

    function ReadBalance(a: Address): (b: int)
      reads this
      ensures b == Spec.Balance(store, a)
    {
      if a in store.balances then store.balances[a] else 0
    }

    method SaveBalance(a: Address, amount: int)
      modifies this
      ensures store == old(store).(balances := old(store).balances[a := amount])
    {
      store := store.(balances := store.balances[a := amount]);
    }

    method MintTo(minter: Address, to: Address, amount: int) returns (r: Txn<()>)
      modifies this
      ensures Settled(r, Spec.MintTo(old(store), minter, to, amount), old(store), store)
    {
      if amount <= 0 {
        return Reverted;
      }
      :- Require(!store.cfg.paused);
      :- Require(minter == store.cfg.admin || store.cfg.minter == Some(minter));
      var saved := store;
      var total, bridged, max := store.totalSupply, store.bridgedToEvm, store.cfg.maxSupply;
      if max > 0 {
        var outstanding :- Checked(total + bridged);
        var after :- Checked(outstanding + amount);
        :- Require(after <= max);
      }
      if store.cfg.bridge == Some(minter) {
        :- Require(amount <= store.bridgedToEvm);
        store := store.(bridgedToEvm := store.bridgedToEvm - amount);
      }
      var balance := Checked(ReadBalance(to) + amount);
      if balance.Reverted? {
        store := saved;
        return Reverted;
      }
      SaveBalance(to, balance.value);
      var supply, minted := Checked(total + amount), Checked(store.everMinted + amount);
      if supply.Reverted? || minted.Reverted? {
        store := saved;
        return Reverted;
      }
      store := store.(totalSupply := supply.value, everMinted := minted.value);
      r := Committed(());
    }

    /** The supply is saved in every round, the lifetime total once at the end. */
    method BatchMintTo(minter: Address, recipients: seq<Address>, amounts: seq<int>) returns (r: Txn<()>)
      modifies this
      ensures Settled(r, Spec.BatchMintTo(old(store), minter, recipients, amounts), old(store), store)
    {
      if |recipients| != |amounts| {
        return Reverted;
      }
      :- Require(recipients != []);
      :- Require(!store.cfg.paused);
      :- Require(minter == store.cfg.admin || store.cfg.minter == Some(minter));
      var saved := store;
      var total, everMinted, max := store.totalSupply, store.everMinted, store.cfg.maxSupply;
      for i := 0 to |recipients|
        invariant total == store.totalSupply && max == store.cfg.maxSupply && store.cfg == saved.cfg
        invariant Spec.MintEach(store.(everMinted := everMinted), recipients[i..], amounts[i..])
               == Spec.MintEach(saved, recipients, amounts)
      {
        var to, amount := recipients[i], amounts[i];
        assert recipients[i..][1..] == recipients[i + 1..] && amounts[i..][1..] == amounts[i + 1..];
        var balance, supply, minted := Checked(ReadBalance(to) + amount), Checked(total + amount), Checked(everMinted + amount);
        if amount <= 0 || (max > 0 && (supply.Reverted? || supply.value > max))
           || balance.Reverted? || supply.Reverted? || minted.Reverted? {
          store := saved;
          return Reverted;
        }
        SaveBalance(to, balance.value);
        total := supply.value;
        store := store.(totalSupply := total);
        everMinted := minted.value;
      }
      store := store.(everMinted := everMinted);
      r := Committed(());
    }

    method Burn(caller: Address, from: Address, amount: int) returns (r: Txn<()>)
      modifies this
      ensures Settled(r, Spec.Burn(old(store), caller, from, amount), old(store), store)
    {
      if amount <= 0 {
        return Reverted;
      }
      var saved := store;
      var isBridge := false;
      if store.cfg.bridge.Some? && caller == store.cfg.bridge.value {
        isBridge := true;
        :- Require(from == caller);
      }
      :- Require(isBridge || caller == store.cfg.admin);
      r := Destroy(from, amount);
      if r.Committed? && isBridge {
        var bridged := Checked(store.bridgedToEvm + amount);
        if bridged.Reverted? {
          store := saved;
          return Reverted;
        }
        store := store.(bridgedToEvm := bridged.value);
      }
    }

    method BurnWithReason(admin: Address, from: Address, amount: int) returns (r: Txn<()>)
      modifies this
      ensures Settled(r, Spec.BurnWithReason(old(store), admin, from, amount), old(store), store)
    {
      if amount <= 0 {
        return Reverted;
      }
      :- Require(admin == store.cfg.admin);
      r := Destroy(from, amount);
    }

    method Destroy(from: Address, amount: int) returns (r: Txn<()>)
      modifies this
      ensures Settled(r, Spec.Destroy(old(store), from, amount), old(store), store)
    {
      var saved := store;
      var balance, total := ReadBalance(from), store.totalSupply;
      :- Require(amount <= balance);
      SaveBalance(from, balance - amount);
      store := store.(totalSupply := Wrap128(total - amount));
      var burned := Checked(store.totalBurned + amount);
      if burned.Reverted? {
        store := saved;
        return Reverted;
      }
      store := store.(totalBurned := burned.value);
      r := Committed(());
    }

    method Transfer(from: Address, to: Address, amount: int) returns (r: Txn<()>)
      modifies this
      ensures Settled(r, Spec.Transfer(old(store), from, to, amount), old(store), store)
    {
      if amount <= 0 {
        return Reverted;
      }
      :- Require(!store.cfg.paused);
      var saved := store;
      var fromBalance := ReadBalance(from);
      :- Require(amount <= fromBalance);
      var toBalance := ReadBalance(to);
      SaveBalance(from, fromBalance - amount);
      var credited := Checked(toBalance + amount);
      if credited.Reverted? {
        store := saved;
        return Reverted;
      }
      SaveBalance(to, credited.value);
      r := Committed(());
    }

    method BatchTransfer(from: Address, recipients: seq<Address>, amounts: seq<int>) returns (r: Txn<()>)
      modifies this
      ensures Settled(r, Spec.BatchTransfer(old(store), from, recipients, amounts), old(store), store)
    {
      if |recipients| != |amounts| {
        return Reverted;
      }
      :- Require(recipients != []);
      :- Require(!store.cfg.paused);
      var saved := store;
      var total := 0;
      for i := 0 to |amounts|
        invariant store == saved && AllPositive(amounts[..i])
        invariant total == SeqSum(amounts[..i]) && IsI128(total)
      {
        assert amounts[..i + 1] == amounts[..i] + [amounts[i]];
        SeqSumPush(amounts[..i], amounts[i]);
        if AllPositive(amounts) {
          PositivePrefix(amounts, i + 1);
          PositivePrefix(amounts, 0);
        }
        :- Require(amounts[i] > 0);
        total :- Checked(total + amounts[i]);
      }
      assert amounts[..|amounts|] == amounts;
      var fromBalance := ReadBalance(from);
      :- Require(total <= fromBalance);
      SaveBalance(from, fromBalance - total);
      ghost var debited := store.balances;
      for i := 0 to |recipients|
        invariant store == saved.(balances := store.balances)
        invariant Spec.CreditEach(store.balances, recipients[i..], amounts[i..])
               == Spec.CreditEach(debited, recipients, amounts)
      {
        assert recipients[i..][1..] == recipients[i + 1..] && amounts[i..][1..] == amounts[i + 1..];
        var credited := Checked(ReadBalance(recipients[i]) + amounts[i]);
        if credited.Reverted? {
          store := saved;
          return Reverted;
        }
        SaveBalance(recipients[i], credited.value);
      }
      r := Committed(());
    }

    method TransferFrom(spender: Address, from: Address, to: Address, amount: int, ledger: nat) returns (r: Txn<()>)
      modifies this
      ensures Settled(r, Spec.TransferFrom(old(store), spender, from, to, amount, ledger), old(store), store)
    {
      if amount <= 0 {
        return Reverted;
      }
      :- Require(!store.cfg.paused);
      var saved := store;
      var grant := Spec.Granted(store, from, spender);
      :- Require(amount <= grant.amount);
      if grant.expiration > 0 && ledger >= grant.expiration {
        return Reverted;
      }
      var fromBalance := ReadBalance(from);
      :- Require(amount <= fromBalance);
      var toBalance := ReadBalance(to);
      store := store.(allowances := store.allowances[(from, spender) := grant.(amount := grant.amount - amount)]);
      SaveBalance(from, fromBalance - amount);
      var credited := Checked(toBalance + amount);
      if credited.Reverted? {
        store := saved;
        return Reverted;
      }
      SaveBalance(to, credited.value);
      r := Committed(());
    }

    method Approve(from: Address, spender: Address, amount: int, expiration: nat, ledger: nat) returns (r: Txn<()>)
      modifies this
      ensures Settled(r, Spec.Approve(old(store), from, spender, amount, expiration, ledger), old(store), store)
    {
      if amount < 0 {
        return Reverted;
      }
      if expiration > 0 && expiration < ledger {
        return Reverted;
      }
      store := store.(allowances := store.allowances[(from, spender) := Spec.Allowance(amount, expiration)]);
      r := Committed(());
    }

    /** The accounting is written before the registry is called; a registry that
    panics undoes it. */
    method Retire(holder: Address, amount: int, purpose: string, uri: string, now: nat, reply: Option<nat>)
      returns (r: Txn<Spec.Certificate>)
      modifies this
      ensures Answered(r, Spec.Retire(old(store), holder, amount, purpose, uri, now, reply), old(store), store)
    {
      if amount <= 0 {
        return Reverted;
      }
      :- Require(!store.cfg.paused);
      var saved := store;
      var balance := ReadBalance(holder);
      :- Require(amount <= balance);
      if store.cfg.registry.None? && store.cfg.requireRegistry {
        return Reverted;
      }
      var total, totalRetired := store.totalSupply, store.totalRetired;
      SaveBalance(holder, balance - amount);
      store := store.(totalSupply := Wrap128(total - amount));
      store := store.(totalRetired := Wrap128(totalRetired + amount));
      var recordId: Option<nat> := None;
      if store.cfg.registry.Some? {
        if reply.None? {
          store := saved;
          return Reverted;
        }
        recordId := reply;
      }
      var cert := Spec.Certificate(holder, store.project, amount, purpose, now, uri, recordId);
      var index := store.certCount;
      store := store.(certs := store.certs[index := cert]);
      store := store.(certCount := index + 1);
      r := Committed(cert);
    }
  }
}
