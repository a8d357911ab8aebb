/** Conservation of credits over every run of the token. */
module TokenConservation {
  import opened Numeric
  import opened Transactions
  import opened Sums
  import opened TokenSpec

  /** The balances add up to the supply, the supply and what left it add up to
  what was ever minted, and every figure is a proper `i128`. */
  ghost predicate Sound(s: Storage) {
    && (forall a :: a in s.balances ==> 0 <= s.balances[a])
    && Total(s.balances) == s.totalSupply
    && s.totalSupply + s.totalRetired + s.totalBurned == s.everMinted
    && 0 <= s.totalSupply && 0 <= s.totalRetired && 0 <= s.totalBurned
    && 0 <= s.bridgedToEvm
    && s.everMinted <= I128_MAX
  }

  /** The call does not move credits from an account to itself. Batches may name
  any recipient, the sender included, any number of times. */
  predicate NoSelfTransfer(c: Call) {
    && (c.CallTransfer? ==> c.from != c.to)
    && (c.CallTransferFrom? ==> c.from != c.to)
  }

  // ---- What single movements do to the sum of balances ----

  lemma BalanceAtMostSupply(s: Storage, a: Address)
    requires Sound(s)
    ensures 0 <= Balance(s, a) <= s.totalSupply
  {
    TotalAtLeast(s.balances, a);
  }

  lemma MoveTotal(balances: map<Address, int>, from: Address, to: Address, amount: int)
    requires Move(balances, from, to, amount).Committed?
    ensures
      var after := Move(balances, from, to, amount).value;
      Total(after) == Total(balances) + if from == to then amount else 0
  {
    TotalUpdate(balances, from, Get(balances, from) - amount);
    TotalUpdate(balances[from := Get(balances, from) - amount], to, Get(balances, to) + amount);
  }

  /** A transfer conserves the sum of balances exactly when it is not to oneself;
  to oneself it creates the amount out of nothing. */
  lemma TransferConservesUnlessToSelf(s: Storage, from: Address, to: Address, amount: int)
    requires Transfer(s, from, to, amount).Committed?
    ensures
      var after := Transfer(s, from, to, amount).value;
      && (Total(after.balances) == Total(s.balances) <==> from != to)
      && (from == to ==> Balance(after, from) == Balance(s, from) + amount)
  {
    MoveTotal(s.balances, from, to, amount);
  }

  /** What `a` receives from a batch, however often it is named. */
  function CreditTo(a: Address, recipients: seq<Address>, amounts: seq<int>): int
    requires |recipients| == |amounts|
    decreases |recipients|
  {
    if recipients == [] then 0
    else (if recipients[0] == a then amounts[0] else 0) + CreditTo(a, recipients[1..], amounts[1..])
  }

  lemma {:induction false} CreditEachEffect(balances: map<Address, int>, recipients: seq<Address>, amounts: seq<int>)
    requires |recipients| == |amounts|
    requires CreditEach(balances, recipients, amounts).Committed?
    ensures
      var after := CreditEach(balances, recipients, amounts).value;
      && (forall a :: Get(after, a) == Get(balances, a) + CreditTo(a, recipients, amounts))
      && Total(after) == Total(balances) + SeqSum(amounts)
    decreases |recipients|
  {
    if recipients != [] {
      var credited := Get(balances, recipients[0]) + amounts[0];
      TotalUpdate(balances, recipients[0], credited);
      CreditEachEffect(balances[recipients[0] := credited], recipients[1..], amounts[1..]);
    }
  }

  /** Each account ends with what it had, less the whole sum if it is the sender,
  plus everything addressed to it, even if it is the sender or named twice. */
  lemma BatchTransferEffect(s: Storage, from: Address, recipients: seq<Address>, amounts: seq<int>)
    requires BatchTransfer(s, from, recipients, amounts).Committed?
    ensures |recipients| == |amounts|
    ensures
      var after := BatchTransfer(s, from, recipients, amounts).value;
      && after == s.(balances := after.balances)
      && Total(after.balances) == Total(s.balances)
      && forall a :: Balance(after, a) ==
           Balance(s, a) - (if a == from then SeqSum(amounts) else 0) + CreditTo(a, recipients, amounts)
  {
    var debited := s.balances[from := Balance(s, from) - SeqSum(amounts)];
    TotalUpdate(s.balances, from, Balance(s, from) - SeqSum(amounts));
    CreditEachEffect(debited, recipients, amounts);
  }

  lemma {:induction false} MintEachEffect(s: Storage, recipients: seq<Address>, amounts: seq<int>)
    requires |recipients| == |amounts|
    requires MintEach(s, recipients, amounts).Committed?
    ensures AllPositive(amounts)
    ensures
      var after := MintEach(s, recipients, amounts).value;
      && after == s.(balances := after.balances, totalSupply := s.totalSupply + SeqSum(amounts),
                     everMinted := s.everMinted + SeqSum(amounts))
      && (forall a :: Balance(after, a) == Balance(s, a) + CreditTo(a, recipients, amounts))
      && Total(after.balances) == Total(s.balances) + SeqSum(amounts)
      && (recipients != [] ==> IsI128(after.everMinted) && (s.cfg.maxSupply > 0 ==> after.totalSupply <= s.cfg.maxSupply))
    decreases |recipients|
  {
    if recipients != [] {
      var t := MintOne(s, recipients[0], amounts[0]).value;
      TotalUpdate(s.balances, recipients[0], Balance(s, recipients[0]) + amounts[0]);
      MintEachEffect(t, recipients[1..], amounts[1..]);
      assert forall i :: 0 < i < |amounts| ==> amounts[i] == amounts[1..][i - 1];
    }
  }

  /** A batch mint is all or nothing, respects the cap on the supply alone, and
  credits every recipient in full. */
  lemma BatchMintEffect(s: Storage, minter: Address, recipients: seq<Address>, amounts: seq<int>)
    requires BatchMintTo(s, minter, recipients, amounts).Committed?
    ensures |recipients| == |amounts| && AllPositive(amounts)
    ensures
      var after := BatchMintTo(s, minter, recipients, amounts).value;
      && after.totalSupply == s.totalSupply + SeqSum(amounts)
      && after.everMinted == s.everMinted + SeqSum(amounts)
      && after.bridgedToEvm == s.bridgedToEvm
      && (s.cfg.maxSupply > 0 ==> after.totalSupply <= s.cfg.maxSupply)
      && forall a :: Balance(after, a) == Balance(s, a) + CreditTo(a, recipients, amounts)
  {
    MintEachEffect(s, recipients, amounts);
  }

  // ---- The invariant ----

  lemma {:induction false} CreditEachNonNegative(balances: map<Address, int>, recipients: seq<Address>, amounts: seq<int>)
    requires |recipients| == |amounts| && AllPositive(amounts)
    requires forall a :: a in balances ==> 0 <= balances[a]
    requires CreditEach(balances, recipients, amounts).Committed?
    ensures forall a :: a in CreditEach(balances, recipients, amounts).value ==>
              0 <= CreditEach(balances, recipients, amounts).value[a]
    decreases |recipients|
  {
    if recipients != [] {
      CreditEachNonNegative(balances[recipients[0] := Get(balances, recipients[0]) + amounts[0]],
                            recipients[1..], amounts[1..]);
    }
  }

  lemma {:induction false} MintEachSound(s: Storage, recipients: seq<Address>, amounts: seq<int>)
    requires Sound(s) && |recipients| == |amounts|
    requires MintEach(s, recipients, amounts).Committed?
    ensures Sound(MintEach(s, recipients, amounts).value)
    decreases |recipients|
  {
    if recipients != [] {
      TotalUpdate(s.balances, recipients[0], Balance(s, recipients[0]) + amounts[0]);
      MintEachSound(MintOne(s, recipients[0], amounts[0]).value, recipients[1..], amounts[1..]);
    }
  }

  lemma DestroySound(s: Storage, from: Address, amount: int)
    requires Sound(s) && 0 < amount && Destroy(s, from, amount).Committed?
    ensures Sound(Destroy(s, from, amount).value)
    ensures Destroy(s, from, amount).value.totalSupply == s.totalSupply - amount
  {
    BalanceAtMostSupply(s, from);
    TotalUpdate(s.balances, from, Balance(s, from) - amount);
  }

  lemma BatchTransferSound(s: Storage, from: Address, recipients: seq<Address>, amounts: seq<int>)
    requires Sound(s) && BatchTransfer(s, from, recipients, amounts).Committed?
    ensures Sound(BatchTransfer(s, from, recipients, amounts).value)
  {
    BatchTransferEffect(s, from, recipients, amounts);
    CreditEachNonNegative(s.balances[from := Balance(s, from) - SeqSum(amounts)], recipients, amounts);
  }

  lemma RetireSound(s: Storage, c: Call)
    requires Sound(s) && c.CallRetire? && Step(s, c).Committed?
    ensures Sound(Next(s, c))
    ensures Next(s, c).totalSupply == s.totalSupply - c.amount
    ensures Next(s, c).totalRetired == s.totalRetired + c.amount
  {
    BalanceAtMostSupply(s, c.holder);
    TotalUpdate(s.balances, c.holder, Balance(s, c.holder) - c.amount);
  }

  lemma StepSound(s: Storage, c: Call)
    requires Sound(s) && NoSelfTransfer(c) && Step(s, c).Committed?
    ensures Sound(Step(s, c).value)
  {
    match c
    case CallMintTo(minter, to, amount) => TotalUpdate(s.balances, to, Balance(s, to) + amount);
    case CallBatchMintTo(minter, recipients, amounts) => MintEachSound(s, recipients, amounts);
    case CallBurn(caller, from, amount) => DestroySound(s, from, amount);
    case CallBurnWithReason(admin, from, amount) => DestroySound(s, from, amount);
    case CallTransfer(from, to, amount) => MoveTotal(s.balances, from, to, amount);
    case CallBatchTransfer(from, recipients, amounts) => BatchTransferSound(s, from, recipients, amounts);
    case CallTransferFrom(spender, from, to, amount, ledger) => MoveTotal(s.balances, from, to, amount);
    case CallApprove(from, spender, amount, expiration, ledger) =>
    case CallRetire(holder, amount, purpose, uri, now, reply) => RetireSound(s, c);
    case CallConfigure(cfg) =>
  }

  ghost predicate NoSelfTransfers(calls: seq<Call>) {
    forall i :: 0 <= i < |calls| ==> NoSelfTransfer(calls[i])
  }

  /** Every run without self-transfers conserves credits. */
  lemma {:induction false} Conservation(s: Storage, calls: seq<Call>)
    requires Sound(s) && NoSelfTransfers(calls)
    ensures Sound(Run(s, calls))
  {
    if calls != [] {
      var front := calls[..|calls| - 1];
      Conservation(s, front);
      if Step(Run(s, front), calls[|calls| - 1]).Committed? {
        StepSound(Run(s, front), calls[|calls| - 1]);
      }
    }
  }

  lemma FreshTokenConserves(admin: Address, project: ProjectId, calls: seq<Call>)
    requires NoSelfTransfers(calls)
    ensures Sound(Run(Init(admin, project), calls))
  {
    Conservation(Init(admin, project), calls);
  }

  /** In such runs neither unchecked operation of burning and retiring wraps. */
  lemma UncheckedArithmeticIsSafe(s: Storage, calls: seq<Call>, holder: Address, amount: int)
    requires Sound(s) && NoSelfTransfers(calls)
    requires 0 < amount <= Balance(Run(s, calls), holder)
    ensures
      var t := Run(s, calls);
      && Wrap128(t.totalSupply - amount) == t.totalSupply - amount
      && Wrap128(t.totalRetired + amount) == t.totalRetired + amount
  {
    Conservation(s, calls);
    BalanceAtMostSupply(Run(s, calls), holder);
  }

  // ---- With self-transfers ----

  /** What survives of the identity in every run whatsoever: it holds modulo the
  width of `i128`, because only unchecked subtraction can break it. */
  ghost predicate Balanced128(s: Storage) {
    (s.totalSupply + s.totalRetired + s.totalBurned - s.everMinted) % TWO_128 == 0
  }

  lemma WrapShift(x: int) returns (k: int)
    ensures Wrap128(x) == x + k * TWO_128
  {
    k := -((x - I128_MIN) / TWO_128);
  }

  lemma ShiftIsCongruent(a: int, k: int)
    ensures (a + k * TWO_128) % TWO_128 == a % TWO_128
  {
    DivShift(a, TWO_128, k);
  }

  lemma StepBalanced(s: Storage, c: Call)
    requires Balanced128(s) && Step(s, c).Committed?
    ensures Balanced128(Step(s, c).value)
  {
    var gap := s.totalSupply + s.totalRetired + s.totalBurned - s.everMinted;
    match c
    case CallBatchMintTo(minter, recipients, amounts) => MintEachEffect(s, recipients, amounts);
    case CallBurn(caller, from, amount) =>
      var k := WrapShift(s.totalSupply - amount);
      ShiftIsCongruent(gap, k);
    case CallBurnWithReason(admin, from, amount) =>
      var k := WrapShift(s.totalSupply - amount);
      ShiftIsCongruent(gap, k);
    case CallRetire(holder, amount, purpose, uri, now, reply) =>
      var k := WrapShift(s.totalSupply - amount);
      var j := WrapShift(s.totalRetired + amount);
      ShiftIsCongruent(gap, k + j);
    case _ =>
  }

  lemma {:induction false} IdentityModuloWidth(admin: Address, project: ProjectId, calls: seq<Call>)
    ensures Balanced128(Run(Init(admin, project), calls))
  {
    if calls != [] {
      var front := calls[..|calls| - 1];
      IdentityModuloWidth(admin, project, front);
      if Step(Run(Init(admin, project), front), calls[|calls| - 1]).Committed? {
        StepBalanced(Run(Init(admin, project), front), calls[|calls| - 1]);
      }
    }
  }

  /** One credit is minted and sent to oneself once; two are then held, and after
  both are burned the supply is negative. */
  lemma SelfTransferBreaksSupply()
    ensures
      var s := Run(Init(1, 7), [CallMintTo(1, 2, 1), CallTransfer(2, 2, 1), CallBurn(1, 2, 2)]);
      s.totalSupply == -1 && s.totalBurned == 2 && s.everMinted == 1
  {
    var calls := [CallMintTo(1, 2, 1), CallTransfer(2, 2, 1), CallBurn(1, 2, 2)];
    assert calls[..2] == [CallMintTo(1, 2, 1), CallTransfer(2, 2, 1)];
    assert calls[..2][..1] == [CallMintTo(1, 2, 1)];
    assert calls[..2][..1][..0] == [];
    var s0 := Init(1, 7);
    var s1 := Next(s0, calls[0]);
    assert s1 == s0.(balances := map[2 := 1], totalSupply := 1, everMinted := 1);
    var s2 := Next(s1, calls[1]);
    assert s2 == s1.(balances := map[2 := 2]);
    var s3 := Next(s2, calls[2]);
    assert Run(s0, calls[..2][..1]) == s1;
    assert Run(s0, calls[..2]) == s2;
  }

  // ---- Certificates ----

  function CertAmounts(certs: map<nat, Certificate>): map<nat, int> {
    map i | i in certs :: certs[i].amount
  }

  ghost function CertifiedTotal(s: Storage): int {
    Total(CertAmounts(s.certs))
  }

  /** Certificates are numbered without gaps and account for all retirement. */
  ghost predicate CertsComplete(s: Storage) {
    && (forall i :: i in s.certs <==> 0 <= i < s.certCount)
    && CertifiedTotal(s) == s.totalRetired
  }

  lemma RetireCerts(s: Storage, c: Call)
    requires Sound(s) && CertsComplete(s) && c.CallRetire? && Step(s, c).Committed?
    ensures CertsComplete(Next(s, c))
  {
    RetireSound(s, c);
    var t := Next(s, c);
    assert CertAmounts(t.certs) == CertAmounts(s.certs)[s.certCount := c.amount];
    TotalUpdate(CertAmounts(s.certs), s.certCount, c.amount);
  }

  lemma OtherCallsCertifyNothing(s: Storage, c: Call)
    requires !c.CallRetire? && Step(s, c).Committed?
    ensures
      var t := Step(s, c).value;
      t.certs == s.certs && t.certCount == s.certCount && t.totalRetired == s.totalRetired
  {
    if c.CallBatchMintTo? {
      MintEachEffect(s, c.recipients, c.amounts);
    }
  }

  lemma StepCerts(s: Storage, c: Call)
    requires Sound(s) && CertsComplete(s) && Step(s, c).Committed?
    ensures CertsComplete(Next(s, c))
  {
    if c.CallRetire? {
      RetireCerts(s, c);
    } else {
      OtherCallsCertifyNothing(s, c);
    }
  }

  lemma {:induction false} RetirementsAreCertified(admin: Address, project: ProjectId, calls: seq<Call>)
    requires NoSelfTransfers(calls)
    ensures CertsComplete(Run(Init(admin, project), calls))
  {
    var s0 := Init(admin, project);
    if calls == [] {
      assert CertAmounts(map[]) == map[];
    } else {
      var front := calls[..|calls| - 1];
      RetirementsAreCertified(admin, project, front);
      Conservation(s0, front);
      if Step(Run(s0, front), calls[|calls| - 1]).Committed? {
        StepCerts(Run(s0, front), calls[|calls| - 1]);
      }
    }
  }

  // ---- Credits locked for the other chain ----

  /** What the call mints other than out of the bridged amount. */
  function NativeMint(s: Storage, c: Call): int {
    match c
    case CallMintTo(minter, to, amount) =>
      if Step(s, c).Committed? && !IsBridge(s, minter) then amount else 0
    case CallBatchMintTo(minter, recipients, amounts) =>
      if Step(s, c).Committed? then SeqSum(amounts) else 0
    case _ => 0
  }

  /** What the call burns other than into the bridged amount. */
  function NativeBurn(s: Storage, c: Call): int {
    match c
    case CallBurn(caller, from, amount) =>
      if Step(s, c).Committed? && !IsBridge(s, caller) then amount else 0
    case CallBurnWithReason(admin, from, amount) =>
      if Step(s, c).Committed? then amount else 0
    case _ => 0
  }

  function NativeMints(s: Storage, calls: seq<Call>): int {
    if calls == [] then 0
    else
      var front := calls[..|calls| - 1];
      NativeMints(s, front) + NativeMint(Run(s, front), calls[|calls| - 1])
  }

  function NativeBurns(s: Storage, calls: seq<Call>): int {
    if calls == [] then 0
    else
      var front := calls[..|calls| - 1];
      NativeBurns(s, front) + NativeBurn(Run(s, front), calls[|calls| - 1])
  }

  function Outstanding(s: Storage): int {
    s.totalSupply + s.totalRetired + s.bridgedToEvm
  }

  lemma StepOutstanding(s: Storage, c: Call)
    requires Sound(s) && NoSelfTransfer(c)
    ensures Outstanding(Next(s, c)) == Outstanding(s) + NativeMint(s, c) - NativeBurn(s, c)
  {
    if Step(s, c).Committed? {
      match c
      case CallBatchMintTo(minter, recipients, amounts) => MintEachEffect(s, recipients, amounts);
      case CallBatchTransfer(from, recipients, amounts) => BatchTransferEffect(s, from, recipients, amounts);
      case CallBurn(caller, from, amount) => DestroySound(s, from, amount);
      case CallBurnWithReason(admin, from, amount) => DestroySound(s, from, amount);
      case CallRetire(holder, amount, purpose, uri, now, reply) => RetireSound(s, c);
      case _ =>
    }
  }

  /** Circulating, retired and bridged credits together are what was minted on
  this chain less what was burned on it, through any changes of bridge. */
  lemma {:induction false} BridgedCreditsAreConserved(admin: Address, project: ProjectId, calls: seq<Call>)
    requires NoSelfTransfers(calls)
    ensures
      var s0 := Init(admin, project);
      var s := Run(s0, calls);
      && s.totalSupply + s.totalRetired + s.bridgedToEvm + NativeBurns(s0, calls) == NativeMints(s0, calls)
      && 0 <= s.bridgedToEvm
  {
    var s0 := Init(admin, project);
    Conservation(s0, calls);
    if calls != [] {
      var front := calls[..|calls| - 1];
      BridgedCreditsAreConserved(admin, project, front);
      Conservation(s0, front);
      StepOutstanding(Run(s0, front), calls[|calls| - 1]);
    }
  }

  /** Circulating and bridged credits together stay under the cap. */
  predicate UnderJointCap(s: Storage) {
    s.totalSupply + s.bridgedToEvm <= s.cfg.maxSupply
  }

  /** A batch mint that is accepted although the bridged credits do not fit. */
  predicate Overshoots(s: Storage, c: Call) {
    && c.CallBatchMintTo? && Step(s, c).Committed?
    && s.totalSupply + s.bridgedToEvm + SeqSum(c.amounts) > s.cfg.maxSupply
  }

  /** No other call can break the joint cap, while the cap itself stays. */
  lemma StepUnderJointCap(s: Storage, c: Call)
    requires Sound(s) && NoSelfTransfer(c) && UnderJointCap(s) && 0 < s.cfg.maxSupply
    requires c.CallConfigure? ==> c.cfg.maxSupply == s.cfg.maxSupply
    ensures Next(s, c).cfg.maxSupply == s.cfg.maxSupply
    ensures UnderJointCap(Next(s, c)) <==> !Overshoots(s, c)
  {
    if Step(s, c).Committed? {
      match c
      case CallBatchMintTo(minter, recipients, amounts) => MintEachEffect(s, recipients, amounts);
      case CallBatchTransfer(from, recipients, amounts) => BatchTransferEffect(s, from, recipients, amounts);
      case CallBurn(caller, from, amount) => DestroySound(s, from, amount);
      case CallBurnWithReason(admin, from, amount) => DestroySound(s, from, amount);
      case CallRetire(holder, amount, purpose, uri, now, reply) => RetireSound(s, c);
      case _ =>
    }
  }

  /** So in every run that keeps the cap, circulating and bridged credits stay
  under it together, as long as no batch mint overshoots. */
  lemma {:induction false} JointCapHolds(s: Storage, calls: seq<Call>)
    requires Sound(s) && NoSelfTransfers(calls) && UnderJointCap(s) && 0 < s.cfg.maxSupply
    requires forall i :: 0 <= i < |calls| && calls[i].CallConfigure? ==> calls[i].cfg.maxSupply == s.cfg.maxSupply
    requires forall i :: 0 <= i < |calls| ==> !Overshoots(Run(s, calls[..i]), calls[i])
    ensures UnderJointCap(Run(s, calls)) && Run(s, calls).cfg.maxSupply == s.cfg.maxSupply
  {
    if calls != [] {
      var n := |calls| - 1;
      var front := calls[..n];
      forall i | 0 <= i < n ensures !Overshoots(Run(s, front[..i]), front[i]) {
        assert front[..i] == calls[..i];
      }
      JointCapHolds(s, front);
      Conservation(s, front);
      StepUnderJointCap(Run(s, front), calls[n]);
    }
  }

  /** A batch does so exactly when the bridged credits fit as well. */
  lemma BatchMintCap(s: Storage, minter: Address, recipients: seq<Address>, amounts: seq<int>)
    requires BatchMintTo(s, minter, recipients, amounts).Committed? && s.cfg.maxSupply > 0
    ensures
      var t := BatchMintTo(s, minter, recipients, amounts).value;
      && t.totalSupply <= t.cfg.maxSupply
      && (t.totalSupply + t.bridgedToEvm <= t.cfg.maxSupply
          <==> s.totalSupply + s.bridgedToEvm + SeqSum(amounts) <= s.cfg.maxSupply)
  {
    MintEachEffect(s, recipients, amounts);
  }

  /** So whenever anything is bridged out, a batch that mints what is left under
  the cap is accepted and takes the two together past it by that much. */
  lemma BatchMintIgnoresBridged(s: Storage, minter: Address, to: Address)
    requires Sound(s) && !s.cfg.paused && MayMint(s, minter)
    requires s.totalSupply < s.cfg.maxSupply <= I128_MAX && s.everMinted + s.cfg.maxSupply - s.totalSupply <= I128_MAX
    ensures
      var r := BatchMintTo(s, minter, [to], [s.cfg.maxSupply - s.totalSupply]);
      r.Committed? && r.value.totalSupply + r.value.bridgedToEvm == s.cfg.maxSupply + s.bridgedToEvm
  {
    var room := s.cfg.maxSupply - s.totalSupply;
    BalanceAtMostSupply(s, to);
    var t := MintOne(s, to, room);
    assert t.Committed?;
    assert [to][1..] == [] && [room][1..] == [];
    assert MintEach(s, [to], [room]) == MintEach(t.value, [], []);
  }
}
