/** The bridge contract, calling the token contract. */
module CreditBridge {
  import opened Transactions
  import opened AddressCodec
  import opened CreditToken
  import Spec = BridgeSpec

  class Bridge {
    const self: Address
    const host: Spec.Host
    const token: Token
    var store: Spec.Storage

    /** A bridge starts with a threshold its list of relayers could meet. */
    constructor (self: Address, host: Spec.Host, token: Token, admin: Address, governance: Address, evmToken: nat,
                 relayers: seq<Spec.Key>, threshold: nat)
      requires Spec.ThresholdAccepted(threshold, relayers)
      ensures this.self == self && this.host == host && this.token == token
      ensures Committed(store) == Spec.Init(admin, governance, evmToken, relayers, threshold)
      ensures store.processed == {} && store.nonce == 0
    {
      this.self, this.host, this.token := self, host, token;
      store := Spec.Storage(admin, governance, evmToken, false, relayers, threshold, {}, 0);
    }

    ghost function System(): Spec.System
      reads this, token
    {
      Spec.System(store, token.store)
    }

    method UpdateRelayers(admin: Address, relayers: seq<Spec.Key>, threshold: nat) returns (r: Txn<()>)
      modifies this
      ensures Settled(r, Spec.UpdateRelayers(old(store), admin, relayers, threshold), old(store), store)
    {
      if admin != store.admin {
        return Reverted;
      }
      if threshold == 0 || threshold > |relayers| {
        return Reverted;
      }
      store := store.(relayers := relayers);
      store := store.(threshold := threshold);
      r := Committed(());
    }

    method Deposit(from: Address, amount: int) returns (r: Txn<()>)
      modifies this, token
      ensures Settled(r, Spec.Step(old(System()), self, host, Spec.CallDeposit(from, amount)), old(System()), System())
    {
      if amount <= 0 {
        return Reverted;
      }
      :- Require(!store.paused);
      var saved := token.store;
      var _ :- token.Transfer(from, self, amount);
      var burned := token.Burn(self, self, amount);
      if burned.Reverted? {
        token.store := saved;
        return Reverted;
      }
      store := store.(nonce := store.nonce + 1);
      r := Committed(());
    }

    method IsRelayer(signer: Spec.Key) returns (found: bool)
      ensures found <==> signer in store.relayers
    {
      found := false;
      for j := 0 to |store.relayers|
        invariant !found && signer !in store.relayers[..j]
      {
        if store.relayers[j] == signer {
          found := true;
          break;
        }
      }
    }

    /** Walks the signers once, remembering the last one seen. */
    method CheckSigners(m: Spec.InboundTransfer, signers: seq<Spec.Key>, signatures: seq<Spec.Signature>)
      returns (r: Txn<nat>)
      requires |signers| == |signatures|
      ensures r == if Spec.SignersAccepted(host, store.relayers, m, signers, signatures)
                   then Committed(|signers|) else Reverted
    {
      var last: Option<Spec.Key> := None;
      var valid := 0;
      for i := 0 to |signers|
        invariant valid == i
        invariant last == if i == 0 then None else Some(signers[i - 1])
        invariant Spec.SignersAccepted(host, store.relayers, m, signers[..i], signatures[..i])
      {
        var signer, signature := signers[i], signatures[i];
        if last.Some? && signer <= last.value {
          return Reverted;
        }
        last := Some(signer);
        var authorized := IsRelayer(signer);
        :- Require(authorized);
        :- Require(Spec.Verifies(host, signer, m, signature));
        valid := valid + 1;
      }
      assert signers[..|signers|] == signers && signatures[..|signatures|] == signatures;
      r := Committed(valid);
    }

    /** The message is marked as processed before its signatures are checked; a
    failed check takes the mark back. */
    method Withdraw(m: Spec.InboundTransfer, signers: seq<Spec.Key>, signatures: seq<Spec.Signature>)
      returns (r: Txn<()>)
      modifies this, token
      ensures Settled(r, Spec.Step(old(System()), self, host, Spec.CallWithdraw(m, signers, signatures)),
                      old(System()), System())
    {
      if store.paused {
        return Reverted;
      }
      :- Require(m.destinationChain == 1);
      :- Require(m.tokenAddress == store.evmToken);
      var saved := store;
      var hash := host.digest(m);
      :- Require(hash !in store.processed);
      store := store.(processed := store.processed + {hash});
      if |signers| != |signatures| || |signers| < store.threshold {
        store := saved;
        return Reverted;
      }
      var valid := CheckSigners(m, signers, signatures);
      if valid.Reverted? || valid.value < store.threshold {
        store := saved;
        return Reverted;
      }
      var recipient := BytesToAddress(m.recipientType, m.recipient);
      if recipient.Reverted? {
        store := saved;
        return Reverted;
      }
      r := token.MintTo(self, host.resolve(recipient.value), m.amount);
      if r.Reverted? {
        store := saved;
      }
    }
  }
}
