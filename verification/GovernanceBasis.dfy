/** What a proposal is decided on: the rule in force when it was made, or the
balances of a governance token that came later. */
module GovernanceBasis {
  import opened Numeric
  import opened Transactions
  import opened GovernanceSpec
  import opened GovernanceSafety

  predicate Makes(s: Storage, c: Call, id: nat) {
    c.CallPropose? && Step(s, c).Committed? && id == s.proposalCount + 1
  }

  /** The governance token that was set when the proposal was made. */
  function TokenAtStart(s: Storage, calls: seq<Call>, id: nat): Option<Address> {
    if calls == [] then None
    else
      var before, c := Run(s, calls[..|calls| - 1]), calls[|calls| - 1];
      if Makes(before, c, id) then before.token else TokenAtStart(s, calls[..|calls| - 1], id)
  }

  /** An accepted vote on the proposal while a token is set. */
  predicate Weighs(s: Storage, c: Call, id: nat, approve: bool) {
    c.CallVote? && c.id == id && c.approve == approve && Step(s, c).Committed? && s.token.Some?
  }

  /** The balances such votes brought to one side. */
  function Balances(s: Storage, calls: seq<Call>, id: nat, approve: bool): int {
    if calls == [] then 0
    else
      var before, c := Run(s, calls[..|calls| - 1]), calls[|calls| - 1];
      Balances(s, calls[..|calls| - 1], id, approve) + if Weighs(before, c, id, approve) then c.balance else 0
  }

  lemma WrapAdds(a: int, b: int)
    ensures Wrap128(Wrap128(a) + b) == Wrap128(a + b)
  {
    var x := a - I128_MIN;
    assert (x % TWO_128 + b) % TWO_128 == (x + b) % TWO_128;
  }

  // ---- The weights of a proposal, traced back ----

  /** A proposal carries the balances cast since a token was set and, if it was made
  before, the number of members as its eligible weight. */
  ghost predicate Weighed(s: Storage, id: nat, start: Option<Address>, yes: int, no: int) {
    if id !in s.proposals then yes == 0 && no == 0
    else
      var p := s.proposals[id];
      && p.forWeight == Wrap128(yes) && p.againstWeight == Wrap128(no)
      && (start.None? ==> p.totalWeight == p.eligible)
      && (s.token.None? ==> start.None? && yes == 0 && no == 0)
  }

  lemma ProposeStaysWeighed(s: Storage, c: Call, id: nat, start: Option<Address>, yes: int, no: int)
    requires Consistent(s) && Weighed(s, id, start, yes, no) && c.CallPropose? && Step(s, c).Committed?
    ensures Weighed(Next(s, c), id, if Makes(s, c, id) then s.token else start, yes, no)
  {
  }

  /** What a vote adds to the weights. */
  lemma VoteAddsWeight(s: Storage, c: Call)
    requires c.CallVote? && Step(s, c).Committed?
    ensures c.id in s.proposals && c.id in Next(s, c).proposals
    ensures
      var p, q, weight := s.proposals[c.id], Next(s, c).proposals[c.id], if s.token.Some? then c.balance else 0;
      && q.forWeight == (if c.approve then Wrap128(p.forWeight + weight) else p.forWeight)
      && q.againstWeight == (if c.approve then p.againstWeight else Wrap128(p.againstWeight + weight))
      && q.totalWeight == p.totalWeight && q.eligible == p.eligible
  {
    var counted := VoteResolves(s, c);
  }

  lemma VoteStaysWeighed(s: Storage, c: Call, id: nat, start: Option<Address>, yes: int, no: int)
    requires Weighed(s, id, start, yes, no) && c.CallVote? && Step(s, c).Committed?
    ensures Weighed(Next(s, c), id, start, yes + if Weighs(s, c, id, true) then c.balance else 0,
                    no + if Weighs(s, c, id, false) then c.balance else 0)
  {
    VoteAddsWeight(s, c);
    VoteCountsOnce(s, c);
    if id == c.id {
      WrapAdds(yes, if s.token.Some? then c.balance else 0);
      WrapAdds(no, if s.token.Some? then c.balance else 0);
    }
  }

  lemma StepStaysWeighed(s: Storage, c: Call, id: nat, start: Option<Address>, yes: int, no: int)
    requires Consistent(s) && Weighed(s, id, start, yes, no)
    ensures Weighed(Next(s, c), id, if Makes(s, c, id) then s.token else start,
                    yes + if Weighs(s, c, id, true) then c.balance else 0,
                    no + if Weighs(s, c, id, false) then c.balance else 0)
  {
    if Step(s, c).Committed? {
      if c.CallPropose? {
        ProposeStaysWeighed(s, c, id, start, yes, no);
      } else if c.CallVote? {
        VoteStaysWeighed(s, c, id, start, yes, no);
      } else if !Touches(c) {
        SettingsEffect(s, c);
      }
    }
  }

  lemma {:induction false} RunStaysWeighed(admin: Address, members: set<Address>, calls: seq<Call>, id: nat)
    ensures
      var d := Init(admin, members);
      Weighed(Run(d, calls), id, TokenAtStart(d, calls, id), Balances(d, calls, id, true), Balances(d, calls, id, false))
  {
    if calls != [] {
      var d, front, c := Init(admin, members), calls[..|calls| - 1], calls[|calls| - 1];
      RunStaysWeighed(admin, members, front, id);
      EveryRunConsistent(admin, members, front);
      StepStaysWeighed(Run(d, front), c, id, TokenAtStart(d, front, id), Balances(d, front, id, true), Balances(d, front, id, false));
    }
  }

  // ---- Which rule decides ----

  predicate SetsOtherToken(s: Storage, c: Call) {
    c.CallSetToken? && Step(s, c).Committed? && s.token != Some(c.token)
  }

  /** The token was changed after the proposal was made. */
  predicate ChangedSince(s: Storage, calls: seq<Call>, id: nat) {
    calls != [] &&
    var before, c := Run(s, calls[..|calls| - 1]), calls[|calls| - 1];
    ChangedSince(s, calls[..|calls| - 1], id) || (id in before.proposals && SetsOtherToken(before, c))
  }

  /** The first token was set after the proposal was made. */
  predicate FirstTokenSince(s: Storage, calls: seq<Call>, id: nat) {
    calls != [] &&
    var before, c := Run(s, calls[..|calls| - 1]), calls[|calls| - 1];
    || FirstTokenSince(s, calls[..|calls| - 1], id)
    || (id in before.proposals && before.token.None? && SetsOtherToken(before, c))
  }

  lemma StepToken(s: Storage, c: Call)
    ensures SetsOtherToken(s, c) ==> Next(s, c).token == Some(c.token)
    ensures !SetsOtherToken(s, c) ==> Next(s, c).token == s.token
  {
  }

  lemma StepMakes(s: Storage, c: Call, id: nat)
    requires Consistent(s)
    ensures Makes(s, c, id) ==> id !in s.proposals
    ensures id in Next(s, c).proposals <==> id in s.proposals || Makes(s, c, id)
  {
    if id in s.proposals {
      StepAdvances(s, c, id);
    }
  }

  lemma {:induction false} NothingChangesBeforeItIsMade(admin: Address, members: set<Address>, calls: seq<Call>, id: nat)
    requires id !in Run(Init(admin, members), calls).proposals
    ensures !ChangedSince(Init(admin, members), calls, id) && !FirstTokenSince(Init(admin, members), calls, id)
  {
    if calls != [] {
      var s := Run(Init(admin, members), calls[..|calls| - 1]);
      EveryRunConsistent(admin, members, calls[..|calls| - 1]);
      StepMakes(s, calls[|calls| - 1], id);
      NothingChangesBeforeItIsMade(admin, members, calls[..|calls| - 1], id);
    }
  }

  /** In every run, a proposal is decided by the kind of rule it was made under,
  members or weights, exactly if the first token was not set in between; and on
  the very token it was made under if that was not changed. */
  lemma {:induction false} RuleIsKeptExactly(admin: Address, members: set<Address>, calls: seq<Call>, id: nat)
    requires id in Run(Init(admin, members), calls).proposals
    ensures
      var d := Init(admin, members);
      var now, start := Run(d, calls).token, TokenAtStart(d, calls, id);
      && ((now.Some? <==> start.Some?) <==> !FirstTokenSince(d, calls, id))
      && (start.Some? ==> now.Some?)
      && (!ChangedSince(d, calls, id) ==> now == start)
  {
    var d := Init(admin, members);
    var front, c := calls[..|calls| - 1], calls[|calls| - 1];
    var s := Run(d, front);
    EveryRunConsistent(admin, members, front);
    StepMakes(s, c, id);
    StepToken(s, c);
    if id in s.proposals {
      RuleIsKeptExactly(admin, members, front, id);
    } else {
      NothingChangesBeforeItIsMade(admin, members, front, id);
    }
  }

  predicate BalancesFit(yes: int, no: int) {
    0 <= yes && 0 <= no && (yes + no) * 10_000 <= I128_MAX
  }

  /** A vote on a proposal whose eligible weight is the number of members. */
  lemma BalancesAgainstMembers(s: Storage, c: Call, yes: int, no: int)
    requires c.CallVote? && Step(s, c).Committed? && s.token.Some? && c.id in Next(s, c).proposals && BalancesFit(yes, no)
    requires
      var p := Next(s, c).proposals[c.id];
      && p.forWeight == yes && p.againstWeight == no && p.totalWeight == p.eligible
      && p.eligible * s.config.quorumBps + 9_999 <= I128_MAX
    ensures
      var p := Next(s, c).proposals[c.id];
      var quorate := (yes + no) * 10_000 >= p.eligible * s.config.quorumBps;
      var carried := yes + no > 0 && yes * 10_000 >= s.config.thresholdBps * (yes + no);
      && (p.status.Approved? <==> quorate && carried)
      && (p.status.Rejected? <==> quorate && !carried)
  {
    WeightedApprovalIsExact(s, c);
  }

  lemma TokenCameLater(admin: Address, members: set<Address>, calls: seq<Call>, c: Call)
    requires
      var s := Run(Init(admin, members), calls);
      c.CallVote? && Step(s, c).Committed? && FirstTokenSince(Init(admin, members), calls, c.id)
    ensures Run(Init(admin, members), calls).token.Some? && TokenAtStart(Init(admin, members), calls + [c], c.id).None?
  {
    assert (calls + [c])[..|calls|] == calls;
    RuleIsKeptExactly(admin, members, calls, c.id);
  }

  /** A proposal made before the first token and voted on after it: the balances of
  the voters since then are held against the number of members, and every earlier
  vote weighs nothing. */
  lemma EarlyProposalIsDecidedOnBalances(admin: Address, members: set<Address>, calls: seq<Call>, c: Call)
    requires
      var s := Run(Init(admin, members), calls);
      && c.CallVote? && Step(s, c).Committed? && FirstTokenSince(Init(admin, members), calls, c.id)
      && c.id in Next(s, c).proposals && Next(s, c).proposals[c.id].eligible * s.config.quorumBps + 9_999 <= I128_MAX
    requires BalancesFit(Balances(Init(admin, members), calls + [c], c.id, true), Balances(Init(admin, members), calls + [c], c.id, false))
    ensures
      var d := Init(admin, members);
      var s := Run(d, calls);
      var p, yes, no := Next(s, c).proposals[c.id], Balances(d, calls + [c], c.id, true), Balances(d, calls + [c], c.id, false);
      var quorate := (yes + no) * 10_000 >= p.eligible * s.config.quorumBps;
      var carried := yes + no > 0 && yes * 10_000 >= s.config.thresholdBps * (yes + no);
      && (p.status.Approved? <==> quorate && carried)
      && (p.status.Rejected? <==> quorate && !carried)
  {
    var d := Init(admin, members);
    var s := Run(d, calls);
    assert (calls + [c])[..|calls|] == calls;
    assert Run(d, calls + [c]) == Next(s, c);
    RunStaysWeighed(admin, members, calls + [c], c.id);
    TokenCameLater(admin, members, calls, c);
    var yes, no := Balances(d, calls + [c], c.id, true), Balances(d, calls + [c], c.id, false);
    WrapInRange(yes);
    WrapInRange(no);
    BalancesAgainstMembers(s, c, yes, no);
  }

  // ---- One holder ----

  lemma RunPush(s: Storage, calls: seq<Call>, c: Call)
    ensures Run(s, calls + [c]) == Next(Run(s, calls), c)
  {
    assert (calls + [c])[..|calls|] == calls;
  }

  lemma ProposedThenTokenSet(admin: Address, members: set<Address>, proposer: Address, token: Address, title: string, now: nat)
    requires proposer in members && title != ""
    ensures
      var d := Init(admin, members);
      var calls := [] + [CallPropose(proposer, title, [], false, now, None)] + [CallSetToken(admin, token, true)];
      var n := |members|;
      Run(d, calls) == d.(proposals := map[1 := Proposal(1, proposer, title, [], false, [], 0, 0, n, n, 0, 0, Pending, now,
                                                         Add64(now, 604_800), 0)],
                          active := [1], proposalCount := 1, token := Some(token))
  {
    var d, c := Init(admin, members), CallPropose(proposer, title, [], false, now, None);
    RunPush(d, [], c);
    RunPush(d, [] + [c], CallSetToken(admin, token, true));
    assert d.active + [1] == [1];
  }

  lemma HolderVotes(s: Storage, c: Call)
    requires c.CallVote? && c.approve && s.token.Some? && c.id in s.proposals && s.config == DEFAULT_CONFIG
    requires c.voter in s.members && (c.id, c.voter) !in s.voted
    requires
      var p := s.proposals[c.id];
      && p.status.Pending? && c.now <= p.votingEndsAt
      && p.votesFor == 0 && p.forWeight == 0 && p.againstWeight == 0
      && 0 < p.totalWeight <= c.balance && c.balance * 10_000 <= I128_MAX
    ensures
      var q := Next(s, c).proposals;
      c.id in q && q[c.id].status.Approved? && q[c.id].votesFor == 1 && q[c.id].eligible == s.proposals[c.id].eligible
    ensures Next(s, c).memberCount == s.memberCount && Next(s, c).config == s.config
  {
    var counted := VoteResolves(s, c);
    WrapInRange(c.balance);
    WeightedApprovalIsExact(s, c);
  }

  /** Any member whose balance matches the number of members then approves a
  proposal of any other alone, before half of them have voted. */
  lemma OneHolderApproves(admin: Address, members: set<Address>, proposer: Address, voter: Address, token: Address,
                          title: string, now: nat, balance: int)
    requires proposer in members && voter in members && 3 <= |members| && title != "" && now < TWO_64 - 604_800
    requires |members| <= balance && balance * 10_000 <= I128_MAX
    ensures
      var calls := [] + [CallPropose(proposer, title, [], false, now, None)] + [CallSetToken(admin, token, true)]
                   + [CallVote(voter, 1, true, now, balance)];
      var s := Run(Init(admin, members), calls);
      && 1 in s.proposals && s.proposals[1].status.Approved?
      && s.proposals[1].votesFor == 1 < CountQuorum(s.proposals[1].eligible, s.memberCount, s.config.quorumBps)
  {
    var d, c := Init(admin, members), CallVote(voter, 1, true, now, balance);
    var calls := [] + [CallPropose(proposer, title, [], false, now, None)] + [CallSetToken(admin, token, true)];
    ProposedThenTokenSet(admin, members, proposer, token, title, now);
    RunPush(d, calls, c);
    HolderVotes(Run(d, calls), c);
    CountQuorumExact(1, |members|, |members|, 5_000);
  }
}
