/** Whose doing a change of the token is: who may mint, who may take from an
account, what is left of an allowance, and what a certificate says. */
module TokenAuthority {
  import opened Numeric
  import opened Transactions
  import opened Sums
  import opened TokenSpec
  import opened TokenConservation

  // ---- Minting ----

  /** The call mints credits in the name of the admin or of the minter, while the
  token is not paused; and a minter that is the bridge brings back no more than is
  bridged out. */
  predicate MintsByRight(s: Storage, c: Call) {
    && (c.CallMintTo? || c.CallBatchMintTo?) && !s.cfg.paused
    && (c.minter == s.cfg.admin || s.cfg.minter == Some(c.minter))
    && (c.CallMintTo? && s.cfg.bridge == Some(c.minter) ==> c.amount <= s.bridgedToEvm)
  }

  /** Nothing else ever counts as minted. */
  lemma MintingIsByRight(s: Storage, c: Call)
    requires Next(s, c).everMinted != s.everMinted
    ensures MintsByRight(s, c)
  {
  }

  // ---- What a call does to an account ----

  /** A transfer moves the amount, but to oneself it only adds it. */
  function Moved(from: Address, to: Address, amount: int, a: Address): int {
    if from == to then (if a == to then amount else 0)
    else (if a == to then amount else 0) - (if a == from then amount else 0)
  }

  /** What a committed call changes in the balance of `a`. */
  function Change(c: Call, a: Address): int {
    match c
    case CallMintTo(_, to, amount) => if a == to then amount else 0
    case CallBatchMintTo(_, recipients, amounts) => if |recipients| == |amounts| then CreditTo(a, recipients, amounts) else 0
    case CallBurn(_, from, amount) => if a == from then -amount else 0
    case CallBurnWithReason(_, from, amount) => if a == from then -amount else 0
    case CallTransfer(from, to, amount) => Moved(from, to, amount, a)
    case CallTransferFrom(_, from, to, amount, _) => Moved(from, to, amount, a)
    case CallBatchTransfer(from, recipients, amounts) =>
      if |recipients| == |amounts| then CreditTo(a, recipients, amounts) - (if a == from then SeqSum(amounts) else 0) else 0
    case CallRetire(holder, amount, _, _, _, _) => if a == holder then -amount else 0
    case _ => 0
  }

  /** Every balance changes by exactly that. */
  lemma BalancesChange(s: Storage, c: Call, a: Address)
    requires Step(s, c).Committed?
    ensures Balance(Next(s, c), a) == Balance(s, a) + Change(c, a)
  {
    if c.CallBatchTransfer? {
      BatchTransferEffect(s, c.from, c.recipients, c.amounts);
    } else if c.CallBatchMintTo? {
      BatchMintEffect(s, c.minter, c.recipients, c.amounts);
    }
  }

  // ---- Taking from an account ----

  /** The call may take from account `a`: in its own name, by an allowance that
  covers the amount and has not expired, or as a burn by the admin, or by the
  bridge from its own account. Only burns go on while the token is paused. */
  predicate TakesByRight(s: Storage, c: Call, a: Address) {
    match c
    case CallTransfer(from, _, _) => from == a && !s.cfg.paused
    case CallBatchTransfer(from, _, _) => from == a && !s.cfg.paused
    case CallRetire(holder, _, _, _, _, _) => holder == a && !s.cfg.paused
    case CallTransferFrom(spender, from, _, amount, ledger) =>
      && from == a && !s.cfg.paused && (from, spender) in s.allowances
      && amount <= s.allowances[(from, spender)].amount
      && (s.allowances[(from, spender)].expiration == 0 || ledger < s.allowances[(from, spender)].expiration)
    case CallBurn(caller, from, _) =>
      from == a && (caller == s.cfg.admin || s.cfg.bridge == Some(caller)) && (s.cfg.bridge == Some(caller) ==> from == caller)
    case CallBurnWithReason(admin, from, _) => from == a && admin == s.cfg.admin
    case _ => false
  }

  lemma {:induction false} CreditsAreNotNegative(a: Address, recipients: seq<Address>, amounts: seq<int>)
    requires |recipients| == |amounts| && AllPositive(amounts)
    ensures 0 <= CreditTo(a, recipients, amounts)
    decreases |recipients|
  {
    if recipients != [] {
      CreditsAreNotNegative(a, recipients[1..], amounts[1..]);
    }
  }

  lemma BatchTakes(s: Storage, c: Call, a: Address)
    requires (c.CallBatchTransfer? || c.CallBatchMintTo?) && Step(s, c).Committed?
    requires Balance(Next(s, c), a) < Balance(s, a)
    ensures TakesByRight(s, c, a)
  {
    if c.CallBatchTransfer? {
      BatchTransferEffect(s, c.from, c.recipients, c.amounts);
    } else {
      BatchMintEffect(s, c.minter, c.recipients, c.amounts);
    }
    CreditsAreNotNegative(a, c.recipients, c.amounts);
  }

  lemma BalanceFallsByRight(s: Storage, c: Call, a: Address)
    requires Balance(Next(s, c), a) < Balance(s, a)
    ensures TakesByRight(s, c, a)
  {
    if c.CallBatchTransfer? || c.CallBatchMintTo? {
      BatchTakes(s, c, a);
    }
  }

  // ---- Allowances ----

  predicate Approves(s: Storage, c: Call, from: Address, spender: Address) {
    c.CallApprove? && c.from == from && c.spender == spender && Step(s, c).Committed?
  }

  predicate Draws(s: Storage, c: Call, from: Address, spender: Address) {
    c.CallTransferFrom? && c.from == from && c.spender == spender && Step(s, c).Committed?
  }

  /** The last allowance that was approved. */
  function Approved(s: Storage, calls: seq<Call>, from: Address, spender: Address): Allowance {
    if calls == [] then Allowance(0, 0)
    else
      var c := calls[|calls| - 1];
      if Approves(Run(s, calls[..|calls| - 1]), c, from, spender) then Allowance(c.amount, c.expiration)
      else Approved(s, calls[..|calls| - 1], from, spender)
  }

  /** What the spender has drawn since then. */
  function Drawn(s: Storage, calls: seq<Call>, from: Address, spender: Address): int {
    if calls == [] then 0
    else
      var before, c := Run(s, calls[..|calls| - 1]), calls[|calls| - 1];
      if Approves(before, c, from, spender) then 0
      else Drawn(s, calls[..|calls| - 1], from, spender) + if Draws(before, c, from, spender) then c.amount else 0
  }

  lemma StepAllowance(s: Storage, c: Call, from: Address, spender: Address)
    ensures Granted(Next(s, c), from, spender)
         == (if Approves(s, c, from, spender) then Allowance(c.amount, c.expiration)
             else if Draws(s, c, from, spender) then Granted(s, from, spender).(amount := Granted(s, from, spender).amount - c.amount)
             else Granted(s, from, spender))
    ensures Approves(s, c, from, spender) ==> 0 <= c.amount && (c.expiration == 0 || c.ledger <= c.expiration)
    ensures Draws(s, c, from, spender) ==> 0 < c.amount <= Granted(s, from, spender).amount
  {
    if c.CallBatchMintTo? && Step(s, c).Committed? {
      MintEachEffect(s, c.recipients, c.amounts);
    }
  }

  /** In every run an allowance is what was last approved less what was drawn since,
  and a spender never draws more. */
  lemma {:induction false} AllowanceIsWhatIsLeft(admin: Address, project: ProjectId, calls: seq<Call>, from: Address, spender: Address)
    ensures
      var d := Init(admin, project);
      var approved, drawn := Approved(d, calls, from, spender), Drawn(d, calls, from, spender);
      && Granted(Run(d, calls), from, spender) == Allowance(approved.amount - drawn, approved.expiration)
      && 0 <= drawn <= approved.amount
  {
    if calls != [] {
      AllowanceIsWhatIsLeft(admin, project, calls[..|calls| - 1], from, spender);
      StepAllowance(Run(Init(admin, project), calls[..|calls| - 1]), calls[|calls| - 1], from, spender);
    }
  }

  lemma DrawingNeeds(s: Storage, c: Call)
    requires c.CallTransferFrom?
    ensures
      var grant := Granted(s, c.from, c.spender);
      TransferFrom(s, c.spender, c.from, c.to, c.amount, c.ledger).Committed? <==>
        && 0 < c.amount <= grant.amount && (grant.expiration == 0 || c.ledger < grant.expiration)
        && !s.cfg.paused && c.amount <= Balance(s, c.from) && IsI128(Balance(s, c.to) + c.amount)
  {
  }

  /** A transfer by allowance goes through exactly if that covers it, has not
  expired, and the owner has the credits, in a token that is not paused. */
  lemma {:induction false} DrawingGoesThroughExactly(admin: Address, project: ProjectId, calls: seq<Call>, c: Call)
    requires c.CallTransferFrom?
    ensures
      var d := Init(admin, project);
      var s, approved := Run(d, calls), Approved(d, calls, c.from, c.spender);
      Step(s, c).Committed? <==>
        && 0 < c.amount <= approved.amount - Drawn(d, calls, c.from, c.spender)
        && (approved.expiration == 0 || c.ledger < approved.expiration)
        && !s.cfg.paused && c.amount <= Balance(s, c.from) && IsI128(Balance(s, c.to) + c.amount)
  {
    AllowanceIsWhatIsLeft(admin, project, calls, c.from, c.spender);
    DrawingNeeds(Run(Init(admin, project), calls), c);
  }

  // ---- Certificates ----

  /** A retirement is certified under the next number with everything it was asked
  for, and with the registry's record if there is one; it needs the registry's
  answer if one is set, and one to be set if that is required. */
  lemma RetirementIsCertified(s: Storage, c: Call)
    requires c.CallRetire? && Step(s, c).Committed?
    ensures
      var record := if s.cfg.registry.Some? then c.reply else None;
      && Next(s, c).certs == s.certs[s.certCount := Certificate(c.holder, s.project, c.amount, c.purpose, c.now, c.uri, record)]
      && Next(s, c).certCount == s.certCount + 1
      && (s.cfg.registry.Some? ==> record.Some?) && (s.cfg.requireRegistry ==> record.Some?)
      && 0 < c.amount <= Balance(s, c.holder) && !s.cfg.paused
  {
  }

  /** No certificate is ever changed or taken back. */
  lemma {:induction false} CertificatesStay(s: Storage, calls: seq<Call>, i: nat)
    requires (forall k :: k in s.certs ==> k < s.certCount) && i in s.certs
    ensures i in Run(s, calls).certs && Run(s, calls).certs[i] == s.certs[i]
    ensures i < Run(s, calls).certCount
  {
    if calls != [] {
      var before, c := Run(s, calls[..|calls| - 1]), calls[|calls| - 1];
      CertificatesStay(s, calls[..|calls| - 1], i);
      if Step(before, c).Committed? {
        if c.CallRetire? {
          RetirementIsCertified(before, c);
        } else {
          OtherCallsCertifyNothing(before, c);
        }
      }
    }
  }
}
