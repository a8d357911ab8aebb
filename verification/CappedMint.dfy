/** The oracle's mint, carried out by the actual credit token. */
module CappedMint {
  import opened Numeric
  import opened Transactions
  import opened Sums
  import opened TokenSpec
  import opened TokenConservation
  import opened CreditToken
  import opened OracleData
  import opened CreditFormula
  import opened HonestMajority
  import Oracle = OracleSpec

  /** The net part goes to the beneficiary, the fee to the treasury; a part of
  zero is not minted at all. */
  function MintPair(t: Storage, oracle: Address, beneficiary: Address, treasury: Address, net: int, fee: int): Txn<Storage> {
    var a :- if net > 0 then MintTo(t, oracle, beneficiary, net) else Committed(t);
    if fee > 0 then MintTo(a, oracle, treasury, fee) else Committed(a)
  }

  function MintRespectingCap(t: Storage, oracle: Address, beneficiary: Address, treasury: Address, feeBps: nat, total: int)
    : Txn<(Storage, (int, int))>
  {
    var shares :- Oracle.MintShares(feeBps, Oracle.TokenView(t.totalSupply, t.cfg.maxSupply, true), total);
    var u :- MintPair(t, oracle, beneficiary, treasury, shares.0, shares.1);
    Committed((u, shares))
  }

  method MintCredits(token: Token, oracle: Address, beneficiary: Address, treasury: Address, feeBps: nat, total: int)
    returns (r: Txn<(int, int)>)
    modifies token
    ensures Answered(r, MintRespectingCap(old(token.store), oracle, beneficiary, treasury, feeBps, total),
                     old(token.store), token.store)
  {
    var saved := token.store;
    var shares :- Oracle.MintShares(feeBps, Oracle.TokenView(saved.totalSupply, saved.cfg.maxSupply, true), total);
    var (net, fee) := shares;
    if net > 0 {
      var _ :- token.MintTo(oracle, beneficiary, net);
    }
    if fee > 0 {
      var minted := token.MintTo(oracle, treasury, fee);
      if minted.Reverted? {
        token.store := saved;
        return Reverted;
      }
    }
    r := Committed(shares);
  }

  /** The token as the oracle sees it when it asks for `total` credits. */
  function ViewOf(t: Storage, oracle: Address, beneficiary: Address, treasury: Address, feeBps: nat, total: int): Oracle.TokenView {
    Oracle.TokenView(t.totalSupply, t.cfg.maxSupply, MintRespectingCap(t, oracle, beneficiary, treasury, feeBps, total).Committed?)
  }

  /** With that view, the oracle's own account of the mint is what happens. */
  lemma ViewIsFaithful(t: Storage, oracle: Address, beneficiary: Address, treasury: Address, feeBps: nat, total: int)
    ensures
      var shares := Oracle.MintShares(feeBps, ViewOf(t, oracle, beneficiary, treasury, feeBps, total), total);
      var actual := MintRespectingCap(t, oracle, beneficiary, treasury, feeBps, total);
      && (shares.Committed? <==> actual.Committed?)
      && (shares.Committed? ==> shares.value == actual.value.1)
  {
  }

  // ---- What is minted ----

  /** The part of `total` that the cap, if there is one, leaves room for. */
  function Room(t: Storage, total: int): int {
    if t.cfg.maxSupply == 0 then Max(0, total) else Max(0, Min(total, t.cfg.maxSupply - t.totalSupply))
  }

  /** The amount fits under the cap, if there is one, beside what is bridged out. */
  predicate FitsJointly(t: Storage, amount: int) {
    t.cfg.maxSupply == 0 || t.totalSupply + t.bridgedToEvm + amount <= t.cfg.maxSupply
  }

  /** A sound, running token that lets the oracle mint, and figures far enough from
  the limits of `i128`. */
  ghost predicate Ready(t: Storage, oracle: Address, feeBps: nat, total: int) {
    && Sound(t)
    && !t.cfg.paused && MayMint(t, oracle) && !IsBridge(t, oracle)
    && 0 <= t.cfg.maxSupply <= I128_MAX
    && feeBps <= 10_000
    && IsI128(Room(t, total) * feeBps)
    && t.everMinted + Room(t, total) <= I128_MAX
  }

  function Fee(m: int, feeBps: nat): int {
    m * feeBps / 10_000
  }

  lemma FeeIsAPart(m: nat, feeBps: nat)
    requires feeBps <= 10_000
    ensures 0 <= Fee(m, feeBps) <= m
  {
    MulMono2(m, m, feeBps, 10_000);
    DivMono(m * feeBps, m * 10_000, 10_000);
    DivMono(0, m * feeBps, 10_000);
    DivShift(0, 10_000, m);
  }

  lemma SharesExactly(t: Storage, oracle: Address, feeBps: nat, total: int)
    requires Ready(t, oracle, feeBps, total)
    ensures
      var m := Room(t, total);
      && Oracle.MintShares(feeBps, Oracle.TokenView(t.totalSupply, t.cfg.maxSupply, true), total)
         == Committed((m - Fee(m, feeBps), Fee(m, feeBps)))
  {
    WrapInRange(t.cfg.maxSupply - t.totalSupply);
    FeeIsAPart(Room(t, total), feeBps);
  }

  /** One mint that fits goes through, and does nothing else. */
  lemma OneMint(t: Storage, oracle: Address, to: Address, amount: int)
    requires Sound(t) && !t.cfg.paused && MayMint(t, oracle) && !IsBridge(t, oracle) && 0 < amount
    requires 0 <= t.cfg.maxSupply <= I128_MAX && t.everMinted + amount <= I128_MAX
    ensures MintTo(t, oracle, to, amount).Committed? <==> FitsJointly(t, amount)
    ensures
      var r := MintTo(t, oracle, to, amount);
      r.Committed? ==>
        && Sound(r.value)
        && r.value == t.(balances := r.value.balances, totalSupply := t.totalSupply + amount, everMinted := t.everMinted + amount)
        && forall a :: Balance(r.value, a) == Balance(t, a) + if a == to then amount else 0
  {
    BalanceAtMostSupply(t, to);
    if MintTo(t, oracle, to, amount).Committed? {
      StepSound(t, CallMintTo(oracle, to, amount));
    }
  }

  lemma PairExactly(t: Storage, oracle: Address, beneficiary: Address, treasury: Address, net: nat, fee: nat)
    requires Sound(t) && !t.cfg.paused && MayMint(t, oracle) && !IsBridge(t, oracle)
    requires 0 <= t.cfg.maxSupply <= I128_MAX && t.everMinted + net + fee <= I128_MAX
    ensures
      var r := MintPair(t, oracle, beneficiary, treasury, net, fee);
      && (r.Committed? <==> net + fee == 0 || FitsJointly(t, net + fee))
      && (r.Committed? ==>
            && Sound(r.value)
            && r.value == t.(balances := r.value.balances, totalSupply := t.totalSupply + net + fee, everMinted := t.everMinted + net + fee)
            && forall a :: Balance(r.value, a)
                 == Balance(t, a) + (if a == beneficiary then net else 0) + (if a == treasury then fee else 0))
  {
    if net > 0 {
      OneMint(t, oracle, beneficiary, net);
    }
    var a := if net > 0 then MintTo(t, oracle, beneficiary, net) else Committed(t);
    if a.Committed? && fee > 0 {
      OneMint(a.value, oracle, treasury, fee);
    }
  }

  /** The oracle mints the smaller of the total and the room under the cap, fee
  included, or all of the total if there is no cap, exactly if that amount also
  fits beside what is bridged out; otherwise the token panics and takes the
  finalization with it. */
  lemma CappedMintExactly(t: Storage, oracle: Address, beneficiary: Address, treasury: Address, feeBps: nat, total: int)
    requires Ready(t, oracle, feeBps, total)
    ensures
      var r, m := MintRespectingCap(t, oracle, beneficiary, treasury, feeBps, total), Room(t, total);
      && (r.Committed? <==> m == 0 || FitsJointly(t, m))
      && (r.Committed? ==>
            var (u, shares) := r.value;
            && shares.0 + shares.1 == m
            && shares.1 == m * feeBps / 10_000
            && u.totalSupply == t.totalSupply + m
            && (t.cfg.maxSupply > 0 ==> u.totalSupply <= Max(t.totalSupply, t.cfg.maxSupply))
            && Sound(u)
            && forall a :: Balance(u, a)
                 == Balance(t, a) + (if a == beneficiary then shares.0 else 0) + (if a == treasury then shares.1 else 0))
  {
    var m := Room(t, total);
    SharesExactly(t, oracle, feeBps, total);
    FeeIsAPart(m, feeBps);
    PairExactly(t, oracle, beneficiary, treasury, m - Fee(m, feeBps), Fee(m, feeBps));
  }

  /** With nothing bridged out, or no cap, the mint never breaks a finalization. */
  lemma NothingBridgedNeverPanics(t: Storage, oracle: Address, beneficiary: Address, treasury: Address, feeBps: nat, total: int)
    requires Ready(t, oracle, feeBps, total) && (t.bridgedToEvm == 0 || t.cfg.maxSupply == 0)
    ensures MintRespectingCap(t, oracle, beneficiary, treasury, feeBps, total).Committed?
  {
    CappedMintExactly(t, oracle, beneficiary, treasury, feeBps, total);
  }

  /** What this means for a window: with its formula computed and a ready token
  behind the project, it can be finalized exactly if the credits still fit beside
  what is bridged out, and its result records what was minted. */
  lemma FinalizationNeedsRoom(s: Oracle.Storage, self: Address, project: ProjectId, subs: seq<Submission>, now: Oracle.Now, t: Storage)
    requires project in s.projects && s.config.Valid()
    requires Finalize(s.config, ResolveBaselines(Some(s.projects[project])), subs).Committed?
    requires Ready(t, self, s.config.feeBps, Finalize(s.config, ResolveBaselines(Some(s.projects[project])), subs).value.total)
    ensures
      var fin := Finalize(s.config, ResolveBaselines(Some(s.projects[project])), subs).value;
      var view := ViewOf(t, self, s.projects[project].beneficiary, s.config.treasury, s.config.feeBps, fin.total);
      var r, m := Oracle.ResultOf(s, project, subs, now, view), Room(t, fin.total);
      && (r.Committed? <==> m == 0 || FitsJointly(t, m))
      && (r.Committed? ==> r.value.fin == fin && r.value.minted + r.value.fee == m && r.value.fee == m * s.config.feeBps / 10_000)
  {
    var fin := Finalize(s.config, ResolveBaselines(Some(s.projects[project])), subs).value;
    var beneficiary, treasury := s.projects[project].beneficiary, s.config.treasury;
    CappedMintExactly(t, self, beneficiary, treasury, s.config.feeBps, fin.total);
    ViewIsFaithful(t, self, beneficiary, treasury, s.config.feeBps, fin.total);
  }

  /** A token with a cap of 100 of which 60 were minted and 10 then bridged out. */
  function BridgedOut(): seq<Call> {
    [] + [CallConfigure(Settings(1, Some(9), Some(5), None, false, false, 100))] + [CallMintTo(1, 5, 60)] + [CallBurn(5, 5, 10)]
  }

  lemma MintedSixty(t: Storage)
    requires t == Init(1, 7).(cfg := Settings(1, Some(9), Some(5), None, false, false, 100))
    ensures MintTo(t, 1, 5, 60) == Committed(t.(balances := map[5 := 60], totalSupply := 60, everMinted := 60))
  {
  }

  lemma BurnedTen(t: Storage)
    requires t == Init(1, 7).(cfg := Settings(1, Some(9), Some(5), None, false, false, 100),
                              balances := map[5 := 60], totalSupply := 60, everMinted := 60)
    ensures Burn(t, 5, 5, 10) == Committed(t.(balances := map[5 := 50], totalSupply := 50, totalBurned := 10, bridgedToEvm := 10))
  {
    assert t.balances[5 := 50] == map[5 := 50];
  }

  lemma BridgedOutRuns()
    ensures Run(Init(1, 7), BridgedOut())
         == Init(1, 7).(cfg := Settings(1, Some(9), Some(5), None, false, false, 100), balances := map[5 := 50],
                        totalSupply := 50, totalBurned := 10, everMinted := 60, bridgedToEvm := 10)
  {
    var s0, c := Init(1, 7), CallConfigure(Settings(1, Some(9), Some(5), None, false, false, 100));
    RunPush(s0, [], c);
    assert Next(s0, c) == s0.(cfg := c.cfg);
    RunPush(s0, [] + [c], CallMintTo(1, 5, 60));
    MintedSixty(s0.(cfg := c.cfg));
    RunPush(s0, [] + [c] + [CallMintTo(1, 5, 60)], CallBurn(5, 5, 10));
    BurnedTen(s0.(cfg := c.cfg, balances := map[5 := 60], totalSupply := 60, everMinted := 60));
  }

  lemma BridgedOutIsSound()
    ensures Sound(Run(Init(1, 7), BridgedOut()))
  {
    BridgedOutRuns();
    TotalUpdate(map[], 5 as Address, 50);
    assert map[][5 as Address := 50] == map[5 := 50];
  }

  lemma BridgedOutState()
    ensures
      var t := Run(Init(1, 7), BridgedOut());
      && t == Init(1, 7).(cfg := Settings(1, Some(9), Some(5), None, false, false, 100), balances := t.balances,
                          totalSupply := 50, totalBurned := 10, everMinted := 60, bridgedToEvm := 10)
      && Sound(t)
  {
    BridgedOutRuns();
    BridgedOutIsSound();
  }

  /** There, any result of at least 41 credits cannot be minted, so the window
  cannot be finalized, although 50 credits are left under the cap. */
  lemma BridgedCreditsBlockTheMint(beneficiary: Address, treasury: Address, feeBps: nat, total: int)
    requires feeBps <= 10_000
    ensures
      var t := Run(Init(1, 7), BridgedOut());
      && Room(t, 50) == 50
      && (MintRespectingCap(t, 9, beneficiary, treasury, feeBps, total).Reverted? <==> 41 <= total)
  {
    var t := Run(Init(1, 7), BridgedOut());
    BridgedOutState();
    MulMono2(0, Room(t, total), 0, feeBps);
    MulMono2(Room(t, total), 50, feeBps, 10_000);
    CappedMintExactly(t, 9, beneficiary, treasury, feeBps, total);
  }

  /** And there a batch mint of what is left under the cap overshoots it by what is
  bridged out. */
  lemma BatchOvershootsAfterBridging(to: Address)
    ensures
      var t := Run(Init(1, 7), BridgedOut());
      var r := BatchMintTo(t, 1, [to], [50]);
      r.Committed? && r.value.totalSupply + r.value.bridgedToEvm == 110 > r.value.cfg.maxSupply
  {
    BridgedOutState();
    var t := Run(Init(1, 7), BridgedOut());
    BatchMintIgnoresBridged(t, 1, to);
    MintEachEffect(t, [to], [50]);
  }
}
