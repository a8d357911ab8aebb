/** Quorum, replay protection and backing of the bridge. */
module BridgeSafety {
  import opened Numeric
  import opened Transactions
  import opened Lists
  import opened AddressCodec
  import opened BridgeSpec
  import TokenConservation

  // ---- Quorum ----

  ghost function Keys(signers: seq<Key>): set<Key> {
    set k | k in signers
  }

  lemma KeysPush(signers: seq<Key>, k: Key)
    ensures Keys(signers + [k]) == Keys(signers) + {k}
  {
    assert forall j :: j in signers + [k] <==> j in signers || j == k;
  }

  ghost predicate IsAscending(signers: seq<Key>) {
    forall i :: 0 < i < |signers| ==> signers[i - 1] < signers[i]
  }

  lemma {:induction false} AscendingBelow(signers: seq<Key>, i: nat, j: nat)
    requires IsAscending(signers) && i < j < |signers|
    ensures signers[i] < signers[j]
    decreases j
  {
    if i < j - 1 {
      AscendingBelow(signers, i, j - 1);
    }
  }

  lemma {:induction false} AscendingIsDistinct(signers: seq<Key>)
    requires IsAscending(signers)
    ensures |Keys(signers)| == |signers|
  {
    if signers != [] {
      var n := |signers| - 1;
      var front := signers[..n];
      AscendingIsDistinct(front);
      KeysPush(front, signers[n]);
      assert signers == front + [signers[n]];
      forall i | 0 <= i < n ensures signers[i] != signers[n] {
        AscendingBelow(signers, i, n);
      }
      assert signers[n] !in Keys(front);
    }
  }

  /** Some set of at least `threshold` different current relayers has signed. */
  ghost predicate QuorumSigned(b: Storage, host: Host, m: InboundTransfer) {
    exists q: set<Key> :: |q| >= b.threshold && AllSigned(b, host, m, q)
  }

  ghost predicate AllSigned(b: Storage, host: Host, m: InboundTransfer, q: set<Key>) {
    forall k :: k in q ==> k in b.relayers && Signed(host, k, m)
  }

  ghost predicate Signed(host: Host, k: Key, m: InboundTransfer) {
    exists sig :: Verifies(host, k, m, sig)
  }

  /** No withdrawal is honoured without the signatures of a quorum of distinct
  relayers, and it mints exactly the amount to exactly the named recipient. */
  lemma WithdrawNeedsQuorum(s: System, self: Address, host: Host, m: InboundTransfer,
                            signers: seq<Key>, signatures: seq<Signature>)
    requires Step(s, self, host, CallWithdraw(m, signers, signatures)).Committed?
    ensures QuorumSigned(s.bridge, host, m)
    ensures BytesToAddress(m.recipientType, m.recipient).Committed?
    ensures
      var t := Next(s, self, host, CallWithdraw(m, signers, signatures)).token;
      var to := host.resolve(BytesToAddress(m.recipientType, m.recipient).value);
      && (forall a :: T.Balance(t, a) == T.Balance(s.token, a) + if a == to then m.amount else 0)
      && t.totalSupply == s.token.totalSupply + m.amount
  {
    AscendingIsDistinct(signers);
    var q := Keys(signers);
    forall k | k in q ensures k in s.bridge.relayers && Signed(host, k, m) {
      var i :| 0 <= i < |signers| && signers[i] == k;
      assert Verifies(host, k, m, signatures[i]);
    }
  }

  lemma Least(q: set<Key>) returns (k: Key)
    requires q != {}
    ensures k in q && forall j :: j in q ==> k <= j
    decreases |q|
  {
    k :| k in q;
    if q - {k} != {} {
      var j := Least(q - {k});
      assert forall i :: i in q ==> i == k || i in q - {k};
      k := Min(j, k);
    } else {
      assert forall i :: i in q ==> i == k || i in q - {k};
    }
  }

  lemma PrependLeast(k: Key, rest: seq<Key>)
    requires IsAscending(rest) && forall j :: j in Keys(rest) ==> k < j
    ensures IsAscending([k] + rest) && Keys([k] + rest) == {k} + Keys(rest)
  {
    var r := [k] + rest;
    forall i | 0 < i < |r| ensures r[i - 1] < r[i] {
      if i == 1 {
        assert r[1] == rest[0] && rest[0] in Keys(rest);
      } else {
        assert r[i - 1] == rest[i - 2] && r[i] == rest[i - 1];
      }
    }
    assert forall j :: j in r <==> j == k || j in rest;
  }

  /** Any set of keys can be presented in the order the loop wants. */
  lemma Ascending(q: set<Key>) returns (r: seq<Key>)
    ensures |r| == |q| && Keys(r) == q
    ensures IsAscending(r)
    decreases |q|
  {
    if q == {} {
      return [];
    }
    var k := Least(q);
    var rest := Ascending(q - {k});
    PrependLeast(k, rest);
    r := [k] + rest;
  }

  /** `Signatures` collects, for each signer, a signature that verifies. */
  ghost function Signatures(host: Host, m: InboundTransfer, signers: seq<Key>): (r: seq<Signature>)
    requires forall k :: k in signers ==> Signed(host, k, m)
    ensures |r| == |signers| && forall i :: 0 <= i < |r| ==> Verifies(host, signers[i], m, r[i])
  {
    if signers == [] then []
    else
      assert Signed(host, signers[0], m);
      var sig :| Verifies(host, signers[0], m, sig);
      [sig] + Signatures(host, m, signers[1..])
  }

  /** The check is also complete: if a quorum has signed, there is a list of
  signers the loop accepts. */
  lemma QuorumCanBePresented(b: Storage, host: Host, m: InboundTransfer)
    ensures QuorumSigned(b, host, m) <==>
            exists signers, signatures :: b.threshold <= |signers| && SignersAccepted(host, b.relayers, m, signers, signatures)
  {
    if QuorumSigned(b, host, m) {
      var q: set<Key> :| |q| >= b.threshold && AllSigned(b, host, m, q);
      var signers := Ascending(q);
      var signatures := Signatures(host, m, signers);
      assert forall i :: 0 <= i < |signers| ==> signers[i] in Keys(signers);
      assert SignersAccepted(host, b.relayers, m, signers, signatures);
    }
    if signers, signatures :| b.threshold <= |signers| && SignersAccepted(host, b.relayers, m, signers, signatures) {
      AscendingIsDistinct(signers);
      forall k | k in Keys(signers) ensures k in b.relayers && Signed(host, k, m) {
        var i :| 0 <= i < |signers| && signers[i] == k;
        assert Verifies(host, k, m, signatures[i]);
      }
      assert |Keys(signers)| >= b.threshold;
    }
  }

  /** The accepted thresholds count repeated relayers, the loop does not: if every
  relayer signs, a quorum exists exactly when the distinct relayers suffice. */
  lemma RepeatedRelayersCanBlock(b: Storage, host: Host, m: InboundTransfer)
    requires forall k :: k in b.relayers ==> Signed(host, k, m)
    ensures QuorumSigned(b, host, m) <==> b.threshold <= |Keys(b.relayers)|
  {
    if QuorumSigned(b, host, m) {
      var q: set<Key> :| |q| >= b.threshold && AllSigned(b, host, m, q);
      assert q <= Keys(b.relayers);
      SubsetSize(q, Keys(b.relayers));
    }
    if b.threshold <= |Keys(b.relayers)| {
      assert forall k :: k in Keys(b.relayers) ==> k in b.relayers && Signed(host, k, m);
    }
  }

  /** A configuration `update_relayers` accepts and no withdrawal can satisfy. */
  lemma RepeatedRelayersExample(b: Storage, host: Host, m: InboundTransfer)
    requires b.relayers == [5, 5] && b.threshold == 2
    ensures ThresholdAccepted(b.threshold, b.relayers)
    ensures !QuorumSigned(b, host, m)
  {
    if QuorumSigned(b, host, m) {
      var q: set<Key> :| |q| >= b.threshold && AllSigned(b, host, m, q);
      SubsetSize(q, {5});
    }
  }

  // ---- Replay ----

  predicate Honours(s: System, self: Address, host: Host, c: Call, d: Digest) {
    c.CallWithdraw? && host.digest(c.m) == d && Step(s, self, host, c).Committed?
  }

  function TimesHonoured(s: System, self: Address, host: Host, calls: seq<Call>, d: Digest): nat {
    if calls == [] then 0
    else
      var front := calls[..|calls| - 1];
      TimesHonoured(s, self, host, front, d)
      + if Honours(Run(s, self, host, front), self, host, calls[|calls| - 1], d) then 1 else 0
  }

  /** In every run each message is honoured at most once, and it is on record
  exactly when it was honoured or on record from the start. */
  lemma {:induction false} HonouredAtMostOnce(s: System, self: Address, host: Host, calls: seq<Call>, d: Digest)
    ensures TimesHonoured(s, self, host, calls, d) <= 1
    ensures d in Run(s, self, host, calls).bridge.processed
            <==> d in s.bridge.processed || TimesHonoured(s, self, host, calls, d) == 1
    ensures d in s.bridge.processed ==> TimesHonoured(s, self, host, calls, d) == 0
  {
    if calls != [] {
      HonouredAtMostOnce(s, self, host, calls[..|calls| - 1], d);
    }
  }

  /** With a collision-free digest, honouring one message never blocks another. */
  lemma OtherMessagesUnaffected(s: System, self: Address, host: Host, c: Call, m: InboundTransfer)
    requires forall x, y :: host.digest(x) == host.digest(y) ==> x == y
    requires c.CallWithdraw? && c.m != m
    ensures host.digest(m) in Next(s, self, host, c).bridge.processed <==> host.digest(m) in s.bridge.processed
  {
    assert host.digest(c.m) != host.digest(m);
  }

  // ---- Backing ----

  /** The bridge contract acts only through its own entry points, and the token
  keeps it as its bridge. */
  predicate Outside(self: Address, c: Call) {
    match c
    case CallToken(CallMintTo(minter, to, amount)) => minter != self
    case CallToken(CallBatchMintTo(minter, recipients, amounts)) => minter != self
    case CallToken(CallBurn(caller, from, amount)) => caller != self
    case CallToken(CallConfigure(cfg)) => cfg.bridge == Some(self)
    case _ => true
  }

  function Deposited(s: System, self: Address, host: Host, calls: seq<Call>): int {
    if calls == [] then 0
    else
      var front, c := calls[..|calls| - 1], calls[|calls| - 1];
      Deposited(s, self, host, front)
      + if c.CallDeposit? && Step(Run(s, self, host, front), self, host, c).Committed? then c.amount else 0
  }

  function Withdrawn(s: System, self: Address, host: Host, calls: seq<Call>): int {
    if calls == [] then 0
    else
      var front, c := calls[..|calls| - 1], calls[|calls| - 1];
      Withdrawn(s, self, host, front)
      + if c.CallWithdraw? && Step(Run(s, self, host, front), self, host, c).Committed? then c.m.amount else 0
  }

  lemma TokenCallKeepsBridged(t: T.Storage, self: Address, c: T.Call)
    requires t.cfg.bridge == Some(self) && Outside(self, CallToken(c)) && T.Step(t, c).Committed?
    ensures T.Step(t, c).value.bridgedToEvm == t.bridgedToEvm
    ensures T.Step(t, c).value.cfg.bridge == Some(self)
  {
    if c.CallBatchMintTo? {
      TokenConservation.MintEachEffect(t, c.recipients, c.amounts);
    }
  }

  lemma StepBacked(u: System, self: Address, host: Host, c: Call)
    requires u.token.cfg.bridge == Some(self) && 0 <= u.token.bridgedToEvm
    requires Outside(self, c) && Step(u, self, host, c).Committed?
    ensures
      var t := Step(u, self, host, c).value.token;
      && t.cfg.bridge == Some(self) && 0 <= t.bridgedToEvm
      && t.bridgedToEvm == u.token.bridgedToEvm + (if c.CallDeposit? then c.amount else 0)
                           - (if c.CallWithdraw? then c.m.amount else 0)
  {
    if c.CallToken? {
      TokenCallKeepsBridged(u.token, self, c.call);
    }
  }

  /** What left this chain and has not come back is exactly what the token holds
  as bridged, so withdrawals never exceed deposits. */
  lemma {:induction false} WithdrawalsAreBacked(s: System, self: Address, host: Host, calls: seq<Call>)
    requires s.token.cfg.bridge == Some(self) && 0 <= s.token.bridgedToEvm
    requires forall i :: 0 <= i < |calls| ==> Outside(self, calls[i])
    ensures
      var t := Run(s, self, host, calls).token;
      && t.cfg.bridge == Some(self)
      && t.bridgedToEvm == s.token.bridgedToEvm + Deposited(s, self, host, calls) - Withdrawn(s, self, host, calls)
      && 0 <= t.bridgedToEvm
  {
    if calls != [] {
      var front, c := calls[..|calls| - 1], calls[|calls| - 1];
      WithdrawalsAreBacked(s, self, host, front);
      var u := Run(s, self, host, front);
      if Step(u, self, host, c).Committed? {
        StepBacked(u, self, host, c);
      }
    }
  }

  /** A deposit takes the amount from the depositor alone, leaves the bridge's own
  account as it was, and turns circulating credits into bridged ones. */
  lemma DepositEffect(s: System, self: Address, host: Host, from: Address, amount: int)
    requires from != self && s.token.cfg.bridge == Some(self) && TokenConservation.Sound(s.token)
    requires Step(s, self, host, CallDeposit(from, amount)).Committed?
    ensures
      var t := Next(s, self, host, CallDeposit(from, amount)).token;
      && TokenConservation.Sound(t)
      && (forall a :: T.Balance(t, a) == T.Balance(s.token, a) - if a == from then amount else 0)
      && t.totalSupply == s.token.totalSupply - amount
      && t.bridgedToEvm == s.token.bridgedToEvm + amount
      && t.totalSupply + t.bridgedToEvm == s.token.totalSupply + s.token.bridgedToEvm
  {
    var received := T.Transfer(s.token, from, self, amount).value;
    TokenConservation.StepSound(s.token, T.CallTransfer(from, self, amount));
    TokenConservation.StepSound(received, T.CallBurn(self, self, amount));
    TokenConservation.DestroySound(received, self, amount);
  }

  /** What every call of the pair keeps: the token stays sound through deposits
  and withdrawals as well. */
  lemma {:induction false} SystemStaysSound(s: System, self: Address, host: Host, calls: seq<Call>)
    requires TokenConservation.Sound(s.token)
    requires forall i :: 0 <= i < |calls| ==>
               && (calls[i].CallDeposit? ==> calls[i].from != self)
               && (calls[i].CallToken? ==> TokenConservation.NoSelfTransfer(calls[i].call))
    ensures TokenConservation.Sound(Run(s, self, host, calls).token)
  {
    if calls != [] {
      var front, c := calls[..|calls| - 1], calls[|calls| - 1];
      SystemStaysSound(s, self, host, front);
      var u := Run(s, self, host, front);
      if Step(u, self, host, c).Committed? {
        match c
        case CallDeposit(from, amount) =>
          var received := T.Transfer(u.token, from, self, amount).value;
          TokenConservation.StepSound(u.token, T.CallTransfer(from, self, amount));
          TokenConservation.StepSound(received, T.CallBurn(self, self, amount));
        case CallWithdraw(m, signers, signatures) =>
          var to := host.resolve(BytesToAddress(m.recipientType, m.recipient).value);
          TokenConservation.StepSound(u.token, T.CallMintTo(self, to, m.amount));
        case CallToken(call) => TokenConservation.StepSound(u.token, call);
        case _ =>
      }
    }
  }

  /** The message is meant for this chain and this token. */
  predicate AddressedHere(b: Storage, m: InboundTransfer) {
    m.destinationChain == 1 && m.tokenAddress == b.evmToken
  }

  lemma RecipientIsDecoded(m: InboundTransfer)
    requires |m.recipient| == 32
    ensures BytesToAddress(m.recipientType, m.recipient).Committed? <==> m.recipientType <= 1
  {
    MappingIsLossless(Account(m.recipient), m.recipientType, m.recipient);
  }

  lemma BridgeMintFits(t: T.Storage, self: Address, to: Address, amount: int)
    requires TokenConservation.Sound(t) && t.cfg.bridge == Some(self) && T.MayMint(t, self)
    requires 0 < t.cfg.maxSupply <= I128_MAX && t.everMinted + amount <= I128_MAX
    ensures T.MintTo(t, self, to, amount).Committed?
            <==> !t.cfg.paused && 0 < amount <= t.bridgedToEvm && t.totalSupply + t.bridgedToEvm + amount <= t.cfg.maxSupply
  {
    TokenConservation.BalanceAtMostSupply(t, to);
  }

  /** A withdrawal moves credits from bridged to circulating, yet the token's cap
  counts the amount twice: with a cap set, it goes through exactly when the
  message is addressed here, new, and signed by the threshold, neither contract is
  paused, the amount is backed, and it fits on top of both. */
  lemma WithdrawalMustFitTheCapTwice(s: System, self: Address, host: Host, m: InboundTransfer,
                                     signers: seq<Key>, signatures: seq<Signature>)
    requires TokenConservation.Sound(s.token) && |m.recipient| == 32
    requires s.token.cfg.bridge == Some(self) && T.MayMint(s.token, self)
    requires 0 < s.token.cfg.maxSupply <= I128_MAX && s.token.everMinted + m.amount <= I128_MAX
    ensures Step(s, self, host, CallWithdraw(m, signers, signatures)).Committed?
            <==>
            && !s.bridge.paused && !s.token.cfg.paused
            && AddressedHere(s.bridge, m) && m.recipientType <= 1 && host.digest(m) !in s.bridge.processed
            && s.bridge.threshold <= |signers| && SignersAccepted(host, s.bridge.relayers, m, signers, signatures)
            && 0 < m.amount <= s.token.bridgedToEvm
            && s.token.totalSupply + s.token.bridgedToEvm + m.amount <= s.token.cfg.maxSupply
  {
    RecipientIsDecoded(m);
    if m.recipientType <= 1 {
      BridgeMintFits(s.token, self, host.resolve(BytesToAddress(m.recipientType, m.recipient).value), m.amount);
    }
  }

  /** A token with a cap of 100 whose whole supply was minted, of which the holder
  sent 60 to the other chain. */
  function SentOut(): seq<Call> {
    [CallToken(T.CallConfigure(T.Settings(1, Some(5), Some(5), None, false, false, 100))), CallToken(T.CallMintTo(1, 2, 100)),
     CallDeposit(2, 60)]
  }

  lemma SentOutState(b: Storage, host: Host)
    requires !b.paused
    ensures
      var t := Run(System(b, T.Init(1, 7)), 5, host, SentOut()).token;
      && t.totalSupply == 40 && t.bridgedToEvm == 60 && t.cfg.maxSupply == 100 && !t.cfg.paused
  {
    var calls, s0 := SentOut(), System(b, T.Init(1, 7));
    assert calls[..2] == [calls[0], calls[1]] && calls[..2][..1] == [calls[0]] && calls[..2][..1][..0] == [];
    var s1 := Next(s0, 5, host, calls[0]);
    var s2 := Next(s1, 5, host, calls[1]);
    assert s2.token == s1.token.(balances := map[2 := 100], totalSupply := 100, everMinted := 100);
    assert Run(s0, 5, host, calls[..2][..1]) == s1;
    assert Run(s0, 5, host, calls[..2]) == s2;
    var received := T.Transfer(s2.token, 2, 5, 60).value;
    assert T.Balance(received, 5) == 60;
  }

  /** Then none of those 60 can come back: every withdrawal reverts, however well it
  is signed, although it would take the supply no further than the cap. */
  lemma NothingComesBack(b: Storage, host: Host, m: InboundTransfer, signers: seq<Key>, signatures: seq<Signature>)
    requires !b.paused
    ensures Step(Run(System(b, T.Init(1, 7)), 5, host, SentOut()), 5, host, CallWithdraw(m, signers, signatures)).Reverted?
  {
    SentOutState(b, host);
  }

  // ---- Whose doing ----

  /** The call is a committed withdrawal or deposit of a bridge that is not paused;
  or the admin changes the relayers, within the accepted thresholds; or the admin
  or governance pauses. */
  predicate ActsByRight(b: Storage, c: Call, after: Storage) {
    && ((c.CallDeposit? || c.CallWithdraw?) && after != b ==> !b.paused)
    && (after.relayers != b.relayers || after.threshold != b.threshold ==>
          c.CallUpdateRelayers? && c.admin == b.admin && 1 <= after.threshold <= |after.relayers|)
    && (after.paused != b.paused ==> c.CallSetPaused? && (c.caller == b.admin || c.caller == b.governance))
    && after.evmToken == b.evmToken && after.admin == b.admin && after.governance == b.governance
  }

  lemma BridgeChangesByRight(s: System, self: Address, host: Host, c: Call)
    ensures ActsByRight(s.bridge, c, Next(s, self, host, c).bridge)
  {
  }

  /** In every run the bridge stays bound to its token, and whatever message it
  honours is addressed to this chain and that token. */
  lemma {:induction false} HonoursOnlyItsOwn(s: System, self: Address, host: Host, calls: seq<Call>, c: Call)
    ensures Run(s, self, host, calls).bridge.evmToken == s.bridge.evmToken
    ensures c.CallWithdraw? && Step(Run(s, self, host, calls), self, host, c).Committed? ==>
              c.m.destinationChain == 1 && c.m.tokenAddress == s.bridge.evmToken
  {
    if calls != [] {
      var front := calls[..|calls| - 1];
      HonoursOnlyItsOwn(s, self, host, front, c);
      BridgeChangesByRight(Run(s, self, host, front), self, host, calls[|calls| - 1]);
    }
  }

  function Deposits(s: System, self: Address, host: Host, calls: seq<Call>): nat {
    if calls == [] then 0
    else
      var front, c := calls[..|calls| - 1], calls[|calls| - 1];
      Deposits(s, self, host, front) + if c.CallDeposit? && Step(Run(s, self, host, front), self, host, c).Committed? then 1 else 0
  }

  /** Deposits are numbered: the outbound nonce counts them. */
  lemma {:induction false} NonceCountsDeposits(s: System, self: Address, host: Host, calls: seq<Call>)
    ensures Run(s, self, host, calls).bridge.nonce == s.bridge.nonce + Deposits(s, self, host, calls)
  {
    if calls != [] {
      NonceCountsDeposits(s, self, host, calls[..|calls| - 1]);
    }
  }
}
