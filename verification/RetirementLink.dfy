/** A token that retires credits through the actual retirement registry. */
module RetirementLink {
  import opened Transactions
  import T = TokenSpec
  import R = RegistrySpec
  import TokenConservation
  import RegistryRefinement
  import opened CreditToken
  import opened RetirementRegistry

  datatype System = System(token: T.Storage, registry: R.Storage)

  /** The addresses of the two contracts. */
  datatype Link = Link(token: Address, registry: Address)

  /** The registry's answer to the token's call: the new record's id, or nothing if
  it panicked. */
  function Reply(r: Txn<(R.Storage, nat)>): Option<nat> {
    if r.Committed? then Some(r.value.1) else None
  }

  /** The registry is called in the middle of the retirement; either contract's
  panic undoes both. */
  function Retire(s: System, link: Link, holder: Address, amount: int, purpose: string, uri: string, now: nat): Txn<(System, T.Certificate)> {
    if s.token.cfg.registry != Some(link.registry) then Reverted
    else
      var recorded := R.RecordRetirement(s.registry, link.token, holder, s.token.project, amount, purpose, uri, now);
      var retired :- T.Retire(s.token, holder, amount, purpose, uri, now, Reply(recorded));
      Committed((System(retired.0, if recorded.Committed? then recorded.value.0 else s.registry), retired.1))
  }

  method RetireThroughRegistry(token: Token, registry: Registry, link: Link, holder: Address, amount: int, purpose: string,
                               uri: string, now: nat) returns (r: Txn<T.Certificate>)
    modifies token, registry
    ensures Answered(r, Retire(old(System(token.store, registry.store)), link, holder, amount, purpose, uri, now),
                     old(System(token.store, registry.store)), System(token.store, registry.store))
  {
    if token.store.cfg.registry != Some(link.registry) {
      return Reverted;
    }
    var saved := registry.store;
    var recorded := registry.RecordRetirement(link.token, holder, token.store.project, amount, purpose, uri, now);
    var reply := if recorded.Committed? then Some(recorded.value) else None;
    r := token.Retire(holder, amount, purpose, uri, now, reply);
    if r.Reverted? {
      registry.store := saved;
    }
  }

  // ---- Runs of the pair ----

  datatype Call =
    | CallRetire(holder: Address, amount: int, purpose: string, uri: string, now: nat)
    | CallToken(call: T.Call)
    | CallRegistry(entry: R.Call)

  function Step(s: System, link: Link, c: Call): Txn<System> {
    match c
    case CallRetire(holder, amount, purpose, uri, now) =>
      var r :- Retire(s, link, holder, amount, purpose, uri, now);
      Committed(r.0)
    case CallToken(call) =>
      var t :- T.Step(s.token, call);
      Committed(s.(token := t))
    case CallRegistry(entry) =>
      var t :- R.Step(s.registry, entry);
      Committed(s.(registry := t))
  }

  function Next(s: System, link: Link, c: Call): System {
    var r := Step(s, link, c);
    if r.Committed? then r.value else s
  }

  function Run(s: System, link: Link, calls: seq<Call>): System {
    if calls == [] then s else Next(Run(s, link, calls[..|calls| - 1]), link, calls[|calls| - 1])
  }

  /** The token retires through the registry only, nobody else speaks for it there,
  and it stays linked. */
  predicate Linked(c: Call, link: Link) {
    && (c.CallToken? ==>
          && !c.call.CallRetire? && TokenConservation.NoSelfTransfer(c.call)
          && (c.call.CallConfigure? ==> c.call.cfg.registry == Some(link.registry)))
    && (c.CallRegistry? && c.entry.CallRecord? ==> c.entry.caller != link.token)
  }

  // ---- The two ledgers agree ----

  /** The records of one token, oldest first. */
  function ByToken(log: seq<R.Record>, token: Address): seq<R.Record> {
    if log == [] then []
    else
      var r := log[|log| - 1];
      ByToken(log[..|log| - 1], token) + if r.token == token then [r] else []
  }

  function CertificateOf(r: R.Record): T.Certificate {
    T.Certificate(r.retiree, r.project, r.amount, r.purpose, r.timestamp, r.uri, Some(r.id))
  }

  /** The certificates are these records, in order, and the retired total is the
  sum of their amounts. */
  ghost predicate Mirrors(t: T.Storage, records: seq<R.Record>) {
    && t.certCount == |records|
    && (forall i: nat :: i < |records| ==> i in t.certs && t.certs[i] == CertificateOf(records[i]))
    && t.totalRetired == R.Amounts(records)
  }

  /** The token's certificates are its records in the registry. */
  ghost predicate Mirrored(s: System, link: Link) {
    && RegistryRefinement.Numbered(s.registry)
    && s.token.cfg.registry == Some(link.registry)
    && TokenConservation.Sound(s.token)
    && Mirrors(s.token, ByToken(R.Log(s.registry), link.token))
  }

  lemma MirrorsPush(t: T.Storage, u: T.Storage, records: seq<R.Record>, r: R.Record)
    requires Mirrors(t, records)
    requires u.certCount == t.certCount + 1 && u.certs == t.certs[t.certCount := CertificateOf(r)]
    requires u.totalRetired == t.totalRetired + r.amount
    ensures Mirrors(u, records + [r])
  {
    AmountsPush(records, r);
  }

  lemma ByTokenPush(log: seq<R.Record>, r: R.Record, token: Address)
    ensures ByToken(log + [r], token) == ByToken(log, token) + if r.token == token then [r] else []
  {
    assert (log + [r])[..|log|] == log;
  }

  lemma AmountsPush(log: seq<R.Record>, r: R.Record)
    ensures R.Amounts(log + [r]) == R.Amounts(log) + r.amount
  {
    assert (log + [r])[..|log|] == log;
  }

  lemma RetireRecords(s: System, link: Link, c: Call)
    requires RegistryRefinement.Numbered(s.registry) && c.CallRetire? && Step(s, link, c).Committed?
    ensures
      var call := R.CallRecord(link.token, c.holder, s.token.project, c.amount, c.purpose, c.uri, c.now);
      && R.Step(s.registry, call) == Committed(Next(s, link, c).registry)
      && T.Step(s.token, T.CallRetire(c.holder, c.amount, c.purpose, c.uri, c.now, Some(s.registry.recordCount + 1)))
         == Committed(Next(s, link, c).token)
  {
  }

  lemma RetireCertifies(t: T.Storage, u: T.Storage, c: T.Call)
    requires c.CallRetire? && T.Step(t, c) == Committed(u) && t.cfg.registry.Some? && c.reply.Some?
    ensures u.certCount == t.certCount + 1 && u.cfg == t.cfg
    ensures u.certs == t.certs[t.certCount := T.Certificate(c.holder, t.project, c.amount, c.purpose, c.now, c.uri, c.reply)]
  {
  }

  lemma RetireExtendsBoth(s: System, link: Link, c: Call, u: System) returns (r: R.Record)
    requires Mirrored(s, link) && c.CallRetire? && Step(s, link, c) == Committed(u)
    ensures RegistryRefinement.Numbered(u.registry) && R.Log(u.registry) == R.Log(s.registry) + [r] && r.token == link.token
    ensures TokenConservation.Sound(u.token) && u.token.cfg == s.token.cfg
    ensures Mirrors(u.token, ByToken(R.Log(s.registry), link.token) + [r])
  {
    var id := s.registry.recordCount + 1;
    RetireRecords(s, link, c);
    var call := R.CallRecord(link.token, c.holder, s.token.project, c.amount, c.purpose, c.uri, c.now);
    var tcall := T.CallRetire(c.holder, c.amount, c.purpose, c.uri, c.now, Some(id));
    RegistryRefinement.RecordAppends(s.registry, call);
    TokenConservation.RetireSound(s.token, tcall);
    RetireCertifies(s.token, u.token, tcall);
    r := R.Record(id, c.holder, s.token.project, link.token, c.amount, c.purpose, c.uri, c.now);
    MirrorsPush(s.token, u.token, ByToken(R.Log(s.registry), link.token), r);
  }

  lemma RetireStaysMirrored(s: System, link: Link, c: Call, u: System)
    requires Mirrored(s, link) && c.CallRetire? && Step(s, link, c) == Committed(u)
    ensures Mirrored(u, link)
  {
    var r := RetireExtendsBoth(s, link, c, u);
    ByTokenPush(R.Log(s.registry), r, link.token);
  }

  lemma TokenStaysMirrored(s: System, link: Link, c: Call)
    requires Mirrored(s, link) && c.CallToken? && Linked(c, link) && Step(s, link, c).Committed?
    ensures Mirrored(Next(s, link, c), link)
  {
    TokenConservation.StepSound(s.token, c.call);
    TokenConservation.OtherCallsCertifyNothing(s.token, c.call);
    ConfigurationKept(s.token, c.call);
  }

  lemma ConfigurationKept(t: T.Storage, c: T.Call)
    requires T.Step(t, c).Committed?
    ensures T.Step(t, c).value.cfg == if c.CallConfigure? then c.cfg else t.cfg
  {
    if c.CallBatchMintTo? {
      TokenConservation.MintEachEffect(t, c.recipients, c.amounts);
    }
  }

  lemma OthersRecord(s: R.Storage, t: R.Storage, c: R.Call, token: Address)
    requires RegistryRefinement.Numbered(s) && R.Step(s, c) == Committed(t) && (c.CallRecord? ==> c.caller != token)
    ensures RegistryRefinement.Numbered(t) && ByToken(R.Log(t), token) == ByToken(R.Log(s), token)
  {
    if c.CallRecord? {
      RegistryRefinement.RecordAppends(s, c);
      ByTokenPush(R.Log(s), R.Record(s.recordCount + 1, c.retiree, c.project, c.caller, c.amount, c.purpose, c.uri, c.now), token);
    } else {
      assert R.Log(t) == R.Log(s);
    }
  }

  lemma RegistryStaysMirrored(s: System, link: Link, c: Call)
    requires Mirrored(s, link) && c.CallRegistry? && Linked(c, link) && Step(s, link, c).Committed?
    ensures Mirrored(Next(s, link, c), link)
  {
    OthersRecord(s.registry, Next(s, link, c).registry, c.entry, link.token);
  }

  /** In every run of a token linked to the registry from the start, its
  certificates are exactly its records there, one for one and in order, and both
  contracts agree on what it has retired. */
  lemma {:induction false} CertificatesMirrorRecords(s: System, link: Link, calls: seq<Call>)
    requires Mirrored(s, link) && forall i :: 0 <= i < |calls| ==> Linked(calls[i], link)
    ensures Mirrored(Run(s, link, calls), link)
  {
    if calls != [] {
      var front, c := calls[..|calls| - 1], calls[|calls| - 1];
      CertificatesMirrorRecords(s, link, front);
      var b := Run(s, link, front);
      if Step(b, link, c).Committed? {
        match c
        case CallRetire(_, _, _, _, _) => RetireStaysMirrored(b, link, c, Next(b, link, c));
        case CallToken(_) => TokenStaysMirrored(b, link, c);
        case CallRegistry(_) => RegistryStaysMirrored(b, link, c);
      }
    }
  }

  lemma NewPairIsMirrored(admin: Address, project: ProjectId, owner: Address, link: Link)
    ensures
      var token := T.Init(admin, project);
      Mirrored(System(token.(cfg := token.cfg.(registry := Some(link.registry))), R.Init(owner)), link)
  {
    assert R.Log(R.Init(owner)) == [];
  }
}
