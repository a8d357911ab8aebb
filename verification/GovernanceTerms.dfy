/** From the calls to the proposal: the terms it was made under, the votes cast on
it, and who may close it. */
module GovernanceTerms {
  import opened Numeric
  import opened Transactions
  import opened GovernanceSpec
  import opened GovernanceSafety
  import opened GovernanceBasis

  // ---- The terms of a proposal ----

  /** The call that made a proposal, the members there were, the weight that was
  eligible, and the last moment for votes. */
  datatype Start = Start(call: Call, members: nat, weight: int, closes: nat)

  function StartWith(s: Storage, c: Call): Start
    requires c.CallPropose?
  {
    Start(c, |s.members|, if s.token.Some? && c.supply.Some? then c.supply.value else |s.members|, Add64(c.now, s.config.votingPeriod))
  }

  function StartOf(s: Storage, calls: seq<Call>, id: nat): Option<Start> {
    if calls == [] then None
    else
      var before, c := Run(s, calls[..|calls| - 1]), calls[|calls| - 1];
      if Makes(before, c, id) then Some(StartWith(before, c)) else StartOf(s, calls[..|calls| - 1], id)
  }

  predicate HasTerms(p: Proposal, id: nat, start: Start) {
    && start.call.CallPropose?
    && p.id == id && p.proposer == start.call.proposer && p.title == start.call.title
    && p.actions == start.call.actions && p.partialAllowed == start.call.partialAllowed
    && p.createdAt == start.call.now && p.votingEndsAt == start.closes
    && p.eligible == start.members && p.totalWeight == start.weight
  }

  ghost predicate Begun(s: Storage, id: nat, start: Option<Start>) {
    && (id in s.proposals <==> start.Some?)
    && (id in s.proposals ==> HasTerms(s.proposals[id], id, start.value))
  }

  lemma VoteKeepsTerms(s: Storage, c: Call, id: nat, start: Option<Start>)
    requires Begun(s, id, start) && c.CallVote? && Step(s, c).Committed?
    ensures Begun(Next(s, c), id, start)
  {
    var counted := VoteResolves(s, c);
    VoteAdvances(s, c);
  }

  lemma ProposeKeepsTerms(s: Storage, c: Call, id: nat, start: Option<Start>)
    requires Consistent(s) && Begun(s, id, start) && c.CallPropose? && Step(s, c).Committed?
    ensures Begun(Next(s, c), id, if Makes(s, c, id) then Some(StartWith(s, c)) else start)
  {
  }

  lemma StepKeepsTerms(s: Storage, c: Call, id: nat, start: Option<Start>)
    requires Consistent(s) && Begun(s, id, start)
    ensures Begun(Next(s, c), id, if Makes(s, c, id) then Some(StartWith(s, c)) else start)
  {
    if Step(s, c).Committed? {
      if c.CallPropose? {
        ProposeKeepsTerms(s, c, id, start);
      } else if c.CallVote? {
        VoteKeepsTerms(s, c, id, start);
      } else if !Touches(c) {
        SettingsEffect(s, c);
      }
    }
  }

  /** In every run a proposal has exactly the terms of the call that made it: what
  is executed is what was proposed, and the eligible members and weight are those
  of that moment. */
  lemma {:induction false} ProposalsKeepTheirTerms(admin: Address, members: set<Address>, calls: seq<Call>, id: nat)
    ensures Begun(Run(Init(admin, members), calls), id, StartOf(Init(admin, members), calls, id))
  {
    if calls != [] {
      var d, front := Init(admin, members), calls[..|calls| - 1];
      ProposalsKeepTheirTerms(admin, members, front, id);
      EveryRunConsistent(admin, members, front);
      StepKeepsTerms(Run(d, front), calls[|calls| - 1], id, StartOf(d, front, id));
    }
  }

  // ---- The votes cast on it ----

  predicate Casts(s: Storage, c: Call, id: nat, approve: bool) {
    c.CallVote? && c.id == id && c.approve == approve && Step(s, c).Committed?
  }

  /** The accepted votes for, or against, the proposal. */
  function VotesCast(s: Storage, calls: seq<Call>, id: nat, approve: bool): nat {
    if calls == [] then 0
    else
      VotesCast(s, calls[..|calls| - 1], id, approve)
      + if Casts(Run(s, calls[..|calls| - 1]), calls[|calls| - 1], id, approve) then 1 else 0
  }

  ghost predicate Counted(s: Storage, id: nat, yes: nat, no: nat) {
    if id in s.proposals then s.proposals[id].votesFor == yes && s.proposals[id].votesAgainst == no else yes == 0 && no == 0
  }

  lemma VoteStaysCounted(s: Storage, c: Call, id: nat, yes: nat, no: nat)
    requires Counted(s, id, yes, no) && c.CallVote? && Step(s, c).Committed?
    ensures Counted(Next(s, c), id, yes + if Casts(s, c, id, true) then 1 else 0, no + if Casts(s, c, id, false) then 1 else 0)
  {
    var counted := VoteResolves(s, c);
    VoteAdvances(s, c);
  }

  lemma StepStaysCounted(s: Storage, c: Call, id: nat, yes: nat, no: nat)
    requires Consistent(s) && Counted(s, id, yes, no)
    ensures Counted(Next(s, c), id, yes + if Casts(s, c, id, true) then 1 else 0, no + if Casts(s, c, id, false) then 1 else 0)
  {
    if Step(s, c).Committed? {
      if c.CallVote? {
        VoteStaysCounted(s, c, id, yes, no);
      } else if !Touches(c) {
        SettingsEffect(s, c);
      }
    }
  }

  /** In every run the counts of a proposal are the accepted votes for and against
  it. */
  lemma {:induction false} CountsAreVotesCast(admin: Address, members: set<Address>, calls: seq<Call>, id: nat)
    ensures
      var d := Init(admin, members);
      Counted(Run(d, calls), id, VotesCast(d, calls, id, true), VotesCast(d, calls, id, false))
  {
    if calls != [] {
      var d, front := Init(admin, members), calls[..|calls| - 1];
      CountsAreVotesCast(admin, members, front, id);
      EveryRunConsistent(admin, members, front);
      StepStaysCounted(Run(d, front), calls[|calls| - 1], id, VotesCast(d, front, id, true), VotesCast(d, front, id, false));
    }
  }

  lemma AfterVote(admin: Address, members: set<Address>, calls: seq<Call>, c: Call) returns (start: Start)
    requires c.CallVote? && Step(Run(Init(admin, members), calls), c).Committed?
    ensures
      var d := Init(admin, members);
      var s := Run(d, calls);
      && StartOf(d, calls, c.id) == Some(start)
      && c.id in s.proposals && s.proposals[c.id].votingEndsAt == start.closes && s.memberCount == |s.members|
      && c.id in Next(s, c).proposals
      && var p := Next(s, c).proposals[c.id];
      && p.eligible == start.members && p.totalWeight == start.weight
      && p.votesFor == VotesCast(d, calls + [c], c.id, true) && p.votesAgainst == VotesCast(d, calls + [c], c.id, false)
  {
    var d := Init(admin, members);
    ProposalsKeepTheirTerms(admin, members, calls, c.id);
    start := StartOf(d, calls, c.id).value;
    EveryRunConsistent(admin, members, calls);
    CountsAreVotesCast(admin, members, calls + [c], c.id);
    RunPush(d, calls, c);
    var counted := VoteResolves(Run(d, calls), c);
    VoteAdvances(Run(d, calls), c);
  }

  /** What a vote decides without a token, from the calls alone: with the votes cast
  so far, itself included, a proposal is approved or rejected once they are the
  quorum of the members then or now, whichever are fewer, as the share of those in
  favour reaches the threshold or not. */
  lemma DecisionFollowsVotes(admin: Address, members: set<Address>, calls: seq<Call>, c: Call) returns (start: Start)
    requires
      var s := Run(Init(admin, members), calls);
      c.CallVote? && Step(s, c).Committed? && s.token.None?
    ensures
      var d := Init(admin, members);
      var s := Run(d, calls);
      var yes, no := VotesCast(d, calls + [c], c.id, true), VotesCast(d, calls + [c], c.id, false);
      var quorate := (yes + no) * 10_000 >= Min(start.members, |s.members|) * s.config.quorumBps;
      && StartOf(d, calls, c.id) == Some(start) && c.id in Next(s, c).proposals
      && var status := Next(s, c).proposals[c.id].status;
      && (status.Approved? <==> quorate && yes * 10_000 >= s.config.thresholdBps * (yes + no))
      && (status.Rejected? <==> quorate && yes * 10_000 < s.config.thresholdBps * (yes + no))
  {
    start := AfterVote(admin, members, calls, c);
    ApprovalIsExact(Run(Init(admin, members), calls), c);
  }

  /** With a token, the same of the balances cast since it was set, and of the
  weight that was eligible when the proposal was made. */
  lemma DecisionFollowsBalances(admin: Address, members: set<Address>, calls: seq<Call>, c: Call) returns (start: Start)
    requires
      var s := Run(Init(admin, members), calls);
      c.CallVote? && Step(s, c).Committed? && s.token.Some?
    requires BalancesFit(Balances(Init(admin, members), calls + [c], c.id, true), Balances(Init(admin, members), calls + [c], c.id, false))
    requires
      var s := Run(Init(admin, members), calls);
      StartOf(Init(admin, members), calls, c.id).Some?
      ==> StartOf(Init(admin, members), calls, c.id).value.weight * s.config.quorumBps + 9_999 <= I128_MAX
    ensures
      var d := Init(admin, members);
      var s := Run(d, calls);
      var yes, no := Balances(d, calls + [c], c.id, true), Balances(d, calls + [c], c.id, false);
      var quorate := (yes + no) * 10_000 >= Max(start.weight, 0) * s.config.quorumBps;
      var carried := yes + no > 0 && yes * 10_000 >= s.config.thresholdBps * (yes + no);
      && StartOf(d, calls, c.id) == Some(start) && c.id in Next(s, c).proposals
      && var status := Next(s, c).proposals[c.id].status;
      && (status.Approved? <==> quorate && carried)
      && (status.Rejected? <==> quorate && !carried)
  {
    var d := Init(admin, members);
    start := AfterVote(admin, members, calls, c);
    RunStaysWeighed(admin, members, calls + [c], c.id);
    RunPush(d, calls, c);
    WrapInRange(Balances(d, calls + [c], c.id, true));
    WrapInRange(Balances(d, calls + [c], c.id, false));
    WeightedApprovalIsExact(Run(d, calls), c);
  }

  /** Two of three members who vote no reject a proposal. */
  lemma TwoOfThreeReject(s: Storage, id: nat, first: Address, second: Address, now: nat)
    requires Consistent(s) && s.token.None? && s.config == DEFAULT_CONFIG && |s.members| == 3
    requires first in s.members && second in s.members && first != second && id in s.proposals
    requires
      var p := s.proposals[id];
      && p.status.Pending? && p.eligible == 3 && p.votesFor == 0 && p.votesAgainst == 0 && now <= p.votingEndsAt
      && (id, first) !in s.voted && (id, second) !in s.voted
    ensures
      var t := Next(Next(s, CallVote(first, id, false, now, 0)), CallVote(second, id, false, now, 0));
      id in t.proposals && t.proposals[id].status.Rejected? && id !in t.active
  {
    var c0, c1 := CallVote(first, id, false, now, 0), CallVote(second, id, false, now, 0);
    assert Step(s, c0).Committed?;
    ApprovalIsExact(s, c0);
    var t := Next(s, c0);
    StepKeeps(s, c0);
    OneNoVote(s, c0);
    assert Step(t, c1).Committed?;
    ApprovalIsExact(t, c1);
    OneNoVote(t, c1);
    StepKeeps(t, c1);
  }

  lemma OneNoVote(s: Storage, c: Call)
    requires c.CallVote? && !c.approve && Step(s, c).Committed?
    ensures c.id in s.proposals && c.id in Next(s, c).proposals
    ensures
      var p, q := s.proposals[c.id], Next(s, c).proposals[c.id];
      && q.votesFor == p.votesFor && q.votesAgainst == p.votesAgainst + 1
      && q.eligible == p.eligible && q.votingEndsAt == p.votingEndsAt
    ensures
      var t := Next(s, c);
      && t.token == s.token && t.config == s.config && t.members == s.members && t.memberCount == s.memberCount
      && t.voted == s.voted + {(c.id, c.voter)}
      && (t.proposals[c.id].status.Approved? || t.proposals[c.id].status.Rejected? || t.proposals[c.id].status.Active?)
  {
    var counted := VoteResolves(s, c);
    VoteShape(s, c);
  }

  // ---- Who may act on it ----

  /** In every run only current members vote, once each, and not after the moment
  that was fixed when the proposal was made. */
  lemma VotesAreDue(admin: Address, members: set<Address>, calls: seq<Call>, c: Call)
    requires c.CallVote? && Step(Run(Init(admin, members), calls), c).Committed?
    ensures
      var d := Init(admin, members);
      var s := Run(d, calls);
      && c.voter in s.members && (c.id, c.voter) !in s.voted && (c.id, c.voter) in Next(s, c).voted
      && StartOf(d, calls, c.id).Some? && c.now <= StartOf(d, calls, c.id).value.closes
  {
    var start := AfterVote(admin, members, calls, c);
  }

  /** A proposal is executed by a member, with every action carried out unless it
  allows for failures, which are then on record one by one; cancelled by its
  proposer or the admin, once approved by the admin alone; and expired only after
  its last moment, if it is still open. */
  predicate ClosedByRight(s: Storage, c: Call, p: Proposal, q: Proposal) {
    && (q.status.Executed? && !p.status.Executed? ==>
          && c.CallExecute? && c.caller in s.members
          && (if p.partialAllowed then
                |q.results| == |p.actions| && forall i :: 0 <= i < |q.results| ==> (q.results[i] <==> i < |c.outcomes| && c.outcomes[i])
              else
                q.results == p.results && |p.actions| <= |c.outcomes| && forall i :: 0 <= i < |p.actions| ==> c.outcomes[i]))
    && (q.status.Cancelled? && !p.status.Cancelled? ==>
          c.CallCancel? && (c.caller == s.admin || (c.caller == p.proposer && !p.status.Approved?)))
    && (q.status.Expired? && !p.status.Expired? ==>
          c.CallExpire? && (p.status.Pending? || p.status.Active?) && p.votingEndsAt < c.now)
  }

  lemma ExecutedByRight(s: Storage, c: Call)
    requires c.CallExecute? && Step(s, c).Committed?
    ensures c.id in s.proposals && c.id in Next(s, c).proposals
    ensures ClosedByRight(s, c, s.proposals[c.id], Next(s, c).proposals[c.id])
    ensures Next(s, c).proposals == s.proposals[c.id := Next(s, c).proposals[c.id]]
  {
    var p := s.proposals[c.id];
    if !p.partialAllowed {
      assert forall i :: 0 <= i < |p.actions| ==> Succeeds(c.outcomes, i);
      if |p.actions| > 0 {
        assert Succeeds(c.outcomes, |p.actions| - 1);
      }
      forall i | 0 <= i < |p.actions| ensures i < |c.outcomes| && c.outcomes[i] {
        assert Succeeds(c.outcomes, i);
      }
    }
  }

  lemma ClosingCallsByRight(s: Storage, c: Call)
    requires (c.CallCancel? || c.CallExpire?) && Step(s, c).Committed?
    ensures c.id in s.proposals && c.id in Next(s, c).proposals
    ensures ClosedByRight(s, c, s.proposals[c.id], Next(s, c).proposals[c.id])
    ensures Next(s, c).proposals == s.proposals[c.id := Next(s, c).proposals[c.id]]
  {
  }

  lemma ProposalsCloseByRight(s: Storage, c: Call, id: nat)
    requires Consistent(s) && id in s.proposals
    ensures id in Next(s, c).proposals && ClosedByRight(s, c, s.proposals[id], Next(s, c).proposals[id])
  {
    if Step(s, c).Committed? {
      if c.CallExecute? {
        ExecutedByRight(s, c);
      } else if c.CallCancel? || c.CallExpire? {
        ClosingCallsByRight(s, c);
      } else if c.CallVote? {
        VoteShape(s, c);
      } else if !c.CallPropose? {
        SettingsEffect(s, c);
      }
    }
  }

  /** A proposal is made by a member, under a title, while there is a slot. */
  lemma ProposalsAreMadeByRight(s: Storage, c: Call, id: nat)
    requires Consistent(s) && id !in s.proposals && id in Next(s, c).proposals
    ensures c.CallPropose? && c.proposer in s.members && c.title != "" && |s.active| < s.config.maxActive
    ensures id == s.proposalCount + 1 && Next(s, c).active == s.active + [id]
  {
  }

  /** Members, configuration, token and admin change by the admin alone; the token
  only to one that answers, and the last member stays. */
  predicate ChangesByRight(s: Storage, c: Call, t: Storage) {
    && (t.members != s.members ==> (c.CallAddMember? || c.CallRemoveMember?) && c.admin == s.admin && t.members != {})
    && (t.config != s.config ==> c.CallUpdateConfig? && c.admin == s.admin && t.config == c.config)
    && (t.token != s.token ==> c.CallSetToken? && c.admin == s.admin && c.answers && t.token == Some(c.token))
    && (t.admin != s.admin ==> c.CallTransferAdmin? && c.admin == s.admin && t.admin == c.newAdmin)
  }

  lemma SettingsChangeByRight(s: Storage, c: Call)
    requires Consistent(s)
    ensures ChangesByRight(s, c, Next(s, c))
  {
    if c.CallRemoveMember? && Step(s, c).Committed? {
      assert |Next(s, c).members| == |s.members| - 1;
    }
  }

  /** A voting period from an hour to thirty days, a timelock of up to seven days, a
  threshold above nothing, a quorum of up to everyone, no negative deposit, and up
  to a hundred slots. */
  predicate InBounds(config: Config) {
    && 3_600 <= config.votingPeriod <= 30 * 24 * 3_600 && config.timelock <= 7 * 24 * 3_600
    && 0 < config.thresholdBps <= 10_000 && config.quorumBps <= 10_000
    && 0 <= config.minDeposit && 0 < config.maxActive <= 100
  }

  /** The configuration starts at seven days, one day, 60%, 50% and ten slots, and in
  every run stays within these bounds; the admin can set any that is. */
  lemma ConfigurationStaysInBounds(admin: Address, members: set<Address>, calls: seq<Call>, config: Config)
    ensures Init(admin, members).config == Config(7 * 24 * 3_600, 24 * 3_600, 6_000, 5_000, 1_000, 10)
    ensures
      var s := Run(Init(admin, members), calls);
      InBounds(s.config) && (Step(s, CallUpdateConfig(s.admin, config)).Committed? <==> InBounds(config))
  {
    EveryRunConsistent(admin, members, calls);
  }
}
