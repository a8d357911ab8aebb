/** The bridge: its storage, its calls into the token, and runs of the pair. */
module BridgeSpec {
  import opened Transactions
  import opened Bytes
  import opened AddressCodec
  import T = TokenSpec

  /** A relayer's 32-byte key, read as a number: the host compares keys byte by
  byte, which is the order of these numbers. */
  type Key = nat
  type Signature = nat

  datatype InboundTransfer = InboundTransfer(
    sourceChain: nat, destinationChain: nat, nonce: nat, tokenAddress: nat, sender: nat,
    recipientType: nat, recipient: Bytes, amount: int)

  /** What the host supplies: hashing, signature checks, and the account behind a
  decoded address. Nothing is assumed about them here. */
  datatype Host = Host(digest: InboundTransfer -> Digest,
                       verify: (Key, InboundTransfer, Signature) -> bool,
                       resolve: Stellar -> Address)

  predicate Verifies(host: Host, k: Key, m: InboundTransfer, signature: Signature) {
    host.verify(k, m, signature)
  }

  datatype Storage = Storage(admin: Address, governance: Address, evmToken: nat, paused: bool,
                             relayers: seq<Key>, threshold: nat, processed: set<Digest>, nonce: nat)

  /** `initialize` and `update_relayers` count the list as given, repeats included. */
  predicate ThresholdAccepted(threshold: nat, relayers: seq<Key>) {
    1 <= threshold <= |relayers|
  }

  function Init(admin: Address, governance: Address, evmToken: nat, relayers: seq<Key>, threshold: nat): Txn<Storage> {
    if !ThresholdAccepted(threshold, relayers) then Reverted
    else
      Committed(Storage(admin, governance, evmToken, false, relayers, threshold, {}, 0))
  }

  function UpdateRelayers(b: Storage, admin: Address, relayers: seq<Key>, threshold: nat): Txn<Storage> {
    if admin != b.admin then Reverted
    else
      :- Require(ThresholdAccepted(threshold, relayers));
      Committed(b.(relayers := relayers, threshold := threshold))
  }

  function SetPaused(b: Storage, caller: Address, paused: bool): Txn<Storage> {
    if caller != b.admin && caller != b.governance then Reverted
    else
      Committed(b.(paused := paused))
  }

  /** The depositor's credits pass through the bridge's account and are burned. */
  function Deposit(b: Storage, t: T.Storage, self: Address, from: Address, amount: int): Txn<(Storage, T.Storage)> {
    if amount <= 0 then Reverted
    else
      :- Require(!b.paused);
      var received :- T.Transfer(t, from, self, amount);
      var burned :- T.Burn(received, self, self, amount);
      Committed((b.(nonce := b.nonce + 1), burned))
  }

  /** Every signer is a relayer, signed the message, and is greater than the one
  before it. */
  predicate SignersAccepted(host: Host, relayers: seq<Key>, m: InboundTransfer,
                            signers: seq<Key>, signatures: seq<Signature>)
  {
    && |signers| == |signatures|
    && forall i :: 0 <= i < |signers| ==>
         && (i > 0 ==> signers[i - 1] < signers[i])
         && signers[i] in relayers
         && Verifies(host, signers[i], m, signatures[i])
  }

  function Withdraw(b: Storage, t: T.Storage, self: Address, host: Host, m: InboundTransfer,
                    signers: seq<Key>, signatures: seq<Signature>): Txn<(Storage, T.Storage)>
  {
    if b.paused then Reverted
    else
      :- Require(m.destinationChain == 1);
      :- Require(m.tokenAddress == b.evmToken);
      :- Require(host.digest(m) !in b.processed);
      :- Require(b.threshold <= |signers|);
      :- Require(SignersAccepted(host, b.relayers, m, signers, signatures));
      var recipient :- BytesToAddress(m.recipientType, m.recipient);
      var minted :- T.MintTo(t, self, host.resolve(recipient), m.amount);
      Committed((b.(processed := b.processed + {host.digest(m)}), minted))
  }

  // ---- Runs of bridge and token together ----

  datatype System = System(bridge: Storage, token: T.Storage)

  datatype Call =
    | CallDeposit(from: Address, amount: int)
    | CallWithdraw(m: InboundTransfer, signers: seq<Key>, signatures: seq<Signature>)
    | CallUpdateRelayers(admin: Address, relayers: seq<Key>, threshold: nat)
    | CallSetPaused(caller: Address, paused: bool)
    | CallToken(call: T.Call)

  function Step(s: System, self: Address, host: Host, c: Call): Txn<System> {
    match c
    case CallDeposit(from, amount) =>
      var r :- Deposit(s.bridge, s.token, self, from, amount);
      Committed(System(r.0, r.1))
    case CallWithdraw(m, signers, signatures) =>
      var r :- Withdraw(s.bridge, s.token, self, host, m, signers, signatures);
      Committed(System(r.0, r.1))
    case CallUpdateRelayers(admin, relayers, threshold) =>
      var b :- UpdateRelayers(s.bridge, admin, relayers, threshold);
      Committed(s.(bridge := b))
    case CallSetPaused(caller, paused) =>
      var b :- SetPaused(s.bridge, caller, paused);
      Committed(s.(bridge := b))
    case CallToken(call) =>
      var t :- T.Step(s.token, call);
      Committed(s.(token := t))
  }

  function Next(s: System, self: Address, host: Host, c: Call): System {
    var r := Step(s, self, host, c);
    if r.Committed? then r.value else s
  }

  function Run(s: System, self: Address, host: Host, calls: seq<Call>): System {
    if calls == [] then s
    else Next(Run(s, self, host, calls[..|calls| - 1]), self, host, calls[|calls| - 1])
  }
}
