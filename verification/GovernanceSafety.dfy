/** Life cycle, timelock and tally of proposals over every run. */
module GovernanceSafety {
  import opened Numeric
  import opened Transactions
  import opened Lists
  import opened GovernanceSpec

  // ---- The invariant ----

  /** Proposals are numbered from one up. */
  ghost predicate Numbered(s: Storage) {
    forall id :: id in s.proposals <==> 1 <= id <= s.proposalCount
  }

  /** The active list is the set of proposals that still occupy a slot. */
  ghost predicate ActiveExact(s: Storage) {
    && NoRepeats(s.active)
    && |s.active| <= 100
    && forall id :: id in s.active <==> id in s.proposals && s.proposals[id].status.Live()
  }

  ghost function Voters(voted: set<(nat, Address)>, id: nat): set<Address> {
    set v | v in voted && v.0 == id :: v.1
  }

  /** The tallies count the recorded voters; without a governance token a
  proposal still open to votes has fewer of them than the snapshot. */
  ghost predicate Tallied(s: Storage, id: nat)
    requires id in s.proposals
  {
    var p := s.proposals[id];
    && p.votesFor + p.votesAgainst == |Voters(s.voted, id)|
    && (s.token.None? ==>
          && p.votesFor + p.votesAgainst <= p.eligible
          && (p.status.Votable() ==> p.votesFor + p.votesAgainst < p.eligible))
  }

  ghost predicate Consistent(s: Storage) {
    && s.config.Valid()
    && s.memberCount == |s.members|
    && Numbered(s)
    && ActiveExact(s)
    && (forall v :: v in s.voted ==> v.0 in s.proposals)
    && (forall id :: id in s.proposals ==> Tallied(s, id))
  }

  // ---- Rounding ----

  /** The rounded quorum decides the exact comparison of fractions. */
  lemma CountQuorumExact(votes: nat, eligible: nat, members: nat, bps: nat)
    ensures votes >= CountQuorum(eligible, members, bps) <==> votes * 10_000 >= Min(eligible, members) * bps
  {
    CeilAtMost(Min(eligible, members) * bps, 10_000, votes);
  }

  lemma WeightQuorumExact(cast: int, total: int, bps: nat)
    requires 0 <= cast && total * bps + 9_999 <= I128_MAX
    ensures cast >= WeightQuorum(total, bps) <==> cast * 10_000 >= Max(total, 0) * bps
  {
    if total > 0 {
      MulMono2(0, total, 0, bps);
      WrapInRange(total * bps + 10_000 - 1);
      CeilAtMost(total * bps, 10_000, cast);
    }
  }

  /** So does the rounded share of yes votes. */
  lemma ShareExact(yes: int, total: int, bps: nat)
    requires 0 <= yes
    ensures ShareReached(yes, total, bps) <==> total > 0 && yes * 10_000 >= bps * total
  {
    if total > 0 {
      FloorAtLeast(yes * 10_000, total, bps);
    }
  }

  lemma WeightShareExact(yes: int, total: int, bps: nat)
    requires 0 <= yes && yes * 10_000 <= I128_MAX
    ensures WeightShareReached(yes, total, bps) <==> total > 0 && yes * 10_000 >= bps * total
  {
    if total > 0 {
      WrapInRange(yes * 10_000);
      FloorAtLeast(yes * 10_000, total, bps);
    }
  }

  /** A quorum of at most 100% never asks for more votes than were snapshotted. */
  lemma QuorumWithinSnapshot(eligible: nat, members: nat, bps: nat)
    requires bps <= 10_000
    ensures CountQuorum(eligible, members, bps) <= eligible
  {
    MulMono(bps, 10_000, Min(eligible, members));
    CountQuorumExact(Min(eligible, members), eligible, members, bps);
  }

  // ---- Every call keeps the invariant ----

  lemma ProposeKeeps(s: Storage, c: Call)
    requires Consistent(s) && c.CallPropose? && Step(s, c).Committed?
    ensures Consistent(Next(s, c))
  {
    var t := Next(s, c);
    var id := s.proposalCount + 1;
    assert id !in s.proposals && id !in s.active;
    assert Voters(s.voted, id) == {};
    assert s.memberCount > 0 by { assert c.proposer in s.members; }
    assert forall x :: x in t.active <==> x in s.active || x == id;
    assert forall k :: k in s.proposals ==> Tallied(s, k);
  }

  lemma VoteAddsVoter(s: Storage, c: Call)
    requires c.CallVote? && Step(s, c).Committed?
    ensures |Voters(Next(s, c).voted, c.id)| == |Voters(s.voted, c.id)| + 1
    ensures forall id :: id != c.id ==> Voters(Next(s, c).voted, id) == Voters(s.voted, id)
  {
    var t := Next(s, c);
    assert Voters(t.voted, c.id) == Voters(s.voted, c.id) + {c.voter};
    assert c.voter !in Voters(s.voted, c.id);
    forall id | id != c.id ensures Voters(t.voted, id) == Voters(s.voted, id) {
    }
  }

  /** A vote counts once; if the proposal stays open, the quorum was missed. */
  lemma VoteCountsOnce(s: Storage, c: Call)
    requires c.CallVote? && Step(s, c).Committed?
    ensures c.id in s.proposals && c.id in Next(s, c).proposals
    ensures
      var p, q := s.proposals[c.id], Next(s, c).proposals[c.id];
      && q.votesFor + q.votesAgainst == p.votesFor + p.votesAgainst + 1
      && q.eligible == p.eligible && p.status.Votable()
      && (q.status.Votable() && s.token.None? ==>
            q.votesFor + q.votesAgainst < CountQuorum(p.eligible, s.memberCount, s.config.quorumBps))
    ensures Next(s, c).proposals == s.proposals[c.id := Next(s, c).proposals[c.id]]
    ensures Next(s, c).token == s.token
  {
  }

  lemma VoteCounts(s: Storage, c: Call)
    requires Consistent(s) && c.CallVote? && Step(s, c).Committed?
    ensures c.id in Next(s, c).proposals && Tallied(Next(s, c), c.id)
    ensures forall id :: id in s.proposals && id != c.id ==> id in Next(s, c).proposals && Tallied(Next(s, c), id)
  {
    VoteAddsVoter(s, c);
    VoteCountsOnce(s, c);
    assert Tallied(s, c.id);
    QuorumWithinSnapshot(s.proposals[c.id].eligible, s.memberCount, s.config.quorumBps);
    forall id | id in s.proposals && id != c.id ensures Tallied(Next(s, c), id) {
      assert Tallied(s, id);
    }
  }

  lemma VoteShape(s: Storage, c: Call)
    requires c.CallVote? && Step(s, c).Committed?
    ensures c.id in s.proposals && s.proposals[c.id].status.Live() && c.id in Next(s, c).proposals
    ensures
      var t := Next(s, c);
      var q := t.proposals[c.id];
      && (q.status.Rejected? || q.status.Live())
      && t == s.(voted := s.voted + {(c.id, c.voter)}, proposals := s.proposals[c.id := q],
                 active := if q.status.Rejected? then Without(s.active, c.id) else s.active)
  {
  }

  lemma VotedActiveExact(s: Storage, t: Storage, id: nat)
    requires ActiveExact(s) && id in s.proposals && s.proposals[id].status.Live() && id in t.proposals
    requires t.proposals == s.proposals[id := t.proposals[id]]
    requires t.proposals[id].status.Rejected? || t.proposals[id].status.Live()
    requires t.active == if t.proposals[id].status.Rejected? then Without(s.active, id) else s.active
    ensures ActiveExact(t)
  {
    WithoutRemoves(s.active, id);
  }

  lemma VoteKeeps(s: Storage, c: Call)
    requires Consistent(s) && c.CallVote? && Step(s, c).Committed?
    ensures Consistent(Next(s, c))
  {
    VoteCounts(s, c);
    VoteShape(s, c);
    VotedActiveExact(s, Next(s, c), c.id);
  }

  /** Execution, cancellation and expiry: one proposal leaves the active list for
  a terminal status; nothing else changes about it that the tally looks at. */
  lemma ClosingKeeps(s: Storage, id: nat, p: Proposal)
    requires Consistent(s) && id in s.proposals
    requires !p.status.Live() && p.votesFor == s.proposals[id].votesFor
    requires p.votesAgainst == s.proposals[id].votesAgainst && p.eligible == s.proposals[id].eligible
    ensures Consistent(s.(active := Without(s.active, id), proposals := s.proposals[id := p]))
  {
    WithoutRemoves(s.active, id);
    assert forall k :: k in s.proposals ==> Tallied(s, k);
  }

  predicate Touches(c: Call) {
    c.CallPropose? || c.CallVote? || c.CallExecute? || c.CallCancel? || c.CallExpire?
  }

  lemma SettingsEffect(s: Storage, c: Call)
    requires !Touches(c) && s.config.Valid() && s.memberCount == |s.members|
    ensures
      var t := Next(s, c);
      && t == s.(admin := t.admin, config := t.config, members := t.members, memberCount := t.memberCount, token := t.token)
      && t.config.Valid() && t.memberCount == |t.members|
      && (t.token.None? ==> s.token.None?)
  {
  }

  lemma SettingsKeep(s: Storage, c: Call)
    requires Consistent(s) && !Touches(c)
    ensures Consistent(Next(s, c))
  {
    SettingsEffect(s, c);
    var t := Next(s, c);
    forall id | id in t.proposals ensures Tallied(t, id) {
      assert Tallied(s, id);
    }
  }

  lemma StepKeeps(s: Storage, c: Call)
    requires Consistent(s)
    ensures Consistent(Next(s, c))
  {
    if Step(s, c).Committed? {
      match c
      case CallPropose(proposer, title, actions, partialAllowed, now, supply) => ProposeKeeps(s, c);
      case CallVote(voter, id, approve, now, balance) => VoteKeeps(s, c);
      case CallExecute(caller, id, now, outcomes) => ClosingKeeps(s, id, Next(s, c).proposals[id]);
      case CallCancel(caller, id) => ClosingKeeps(s, id, Next(s, c).proposals[id]);
      case CallExpire(id, now) => ClosingKeeps(s, id, Next(s, c).proposals[id]);
      case _ => SettingsKeep(s, c);
    }
  }

  /** In every reachable state the active list is exact and duplicate-free and
  the tallies are those of the recorded voters, through every removal and
  re-admission of members. */
  lemma {:induction false} EveryRunConsistent(admin: Address, members: set<Address>, calls: seq<Call>)
    ensures Consistent(Run(Init(admin, members), calls))
  {
    if calls != [] {
      EveryRunConsistent(admin, members, calls[..|calls| - 1]);
      StepKeeps(Run(Init(admin, members), calls[..|calls| - 1]), calls[|calls| - 1]);
    }
  }

  /** While no governance token was ever set, no proposal has more votes than
  there were members when it was made. */
  lemma VotesWithinSnapshot(admin: Address, members: set<Address>, calls: seq<Call>, id: nat)
    requires
      var s := Run(Init(admin, members), calls);
      id in s.proposals && s.token.None?
    ensures
      var p := Run(Init(admin, members), calls).proposals[id];
      p.votesFor + p.votesAgainst <= p.eligible
  {
    EveryRunConsistent(admin, members, calls);
    assert Tallied(Run(Init(admin, members), calls), id);
  }

  // ---- Life cycle ----

  /** A permitted move of proposal `id` from `p` to `q` in one call. */
  predicate Advances(s: Storage, c: Call, id: nat, p: Proposal, q: Proposal) {
    && p.status.Rank() <= q.status.Rank()
    && (!p.status.Live() ==> q == p)
    && (p.status.Approved? && q.status.Approved? ==> q == p)
    && (q.status.Executed? && q != p ==> p.status.Approved? && c.CallExecute? && c.id == id && p.timelockEndsAt <= c.now)
    && (q.status.Approved? && q != p ==> c.CallVote? && c.id == id && q.timelockEndsAt == Add64(c.now, s.config.timelock))
  }

  lemma VoteAdvances(s: Storage, c: Call)
    requires c.CallVote? && Step(s, c).Committed?
    ensures c.id in s.proposals && Advances(s, c, c.id, s.proposals[c.id], Next(s, c).proposals[c.id])
    ensures Next(s, c).proposals == s.proposals[c.id := Next(s, c).proposals[c.id]]
  {
  }

  /** A proposal's status never goes back, and a terminal one is final. */
  lemma StepAdvances(s: Storage, c: Call, id: nat)
    requires Consistent(s) && id in s.proposals
    ensures id in Next(s, c).proposals
    ensures Advances(s, c, id, s.proposals[id], Next(s, c).proposals[id])
  {
    if c.CallVote? && Step(s, c).Committed? {
      VoteAdvances(s, c);
    }
  }

  lemma {:induction false} StatusNeverGoesBack(s: Storage, calls: seq<Call>, id: nat)
    requires Consistent(s) && id in s.proposals
    ensures Consistent(Run(s, calls)) && id in Run(s, calls).proposals
    ensures s.proposals[id].status.Rank() <= Run(s, calls).proposals[id].status.Rank()
    ensures !s.proposals[id].status.Live() ==> Run(s, calls).proposals[id] == s.proposals[id]
  {
    if calls != [] {
      var front, c := calls[..|calls| - 1], calls[|calls| - 1];
      StatusNeverGoesBack(s, front, id);
      StepKeeps(Run(s, front), c);
      StepAdvances(Run(s, front), c, id);
    }
  }

  predicate Dispatches(s: Storage, c: Call, id: nat) {
    c.CallExecute? && c.id == id && Step(s, c).Committed?
  }

  function TimesDispatched(s: Storage, calls: seq<Call>, id: nat): nat {
    if calls == [] then 0
    else
      var front := calls[..|calls| - 1];
      TimesDispatched(s, front, id) + if Dispatches(Run(s, front), calls[|calls| - 1], id) then 1 else 0
  }

  ghost predicate IsExecuted(s: Storage, id: nat) {
    id in s.proposals && s.proposals[id].status.Executed?
  }

  lemma StepDispatch(s: Storage, c: Call, id: nat)
    requires Consistent(s)
    ensures if Dispatches(s, c, id) then !IsExecuted(s, id) && IsExecuted(Next(s, c), id)
            else IsExecuted(Next(s, c), id) <==> IsExecuted(s, id)
  {
    if id in s.proposals {
      StepAdvances(s, c, id);
    } else if id in Next(s, c).proposals {
      NewProposalsArePending(s, c, id);
    }
  }

  /** In every run a proposal's actions are dispatched at most once, and exactly
  once if and only if it ends up executed. */
  lemma {:induction false} DispatchedAtMostOnce(admin: Address, members: set<Address>, calls: seq<Call>, id: nat)
    ensures TimesDispatched(Init(admin, members), calls, id)
            == if IsExecuted(Run(Init(admin, members), calls), id) then 1 else 0
  {
    if calls != [] {
      var front := calls[..|calls| - 1];
      DispatchedAtMostOnce(admin, members, front, id);
      EveryRunConsistent(admin, members, front);
      StepDispatch(Run(Init(admin, members), front), calls[|calls| - 1], id);
    }
  }

  lemma NewProposalsArePending(s: Storage, c: Call, id: nat)
    requires Consistent(s) && id !in s.proposals && id in Next(s, c).proposals
    ensures Next(s, c).proposals[id].status.Pending? && !Dispatches(s, c, id)
  {
  }

  /** Call `j` of the run is the vote that approved proposal `id`. */
  ghost predicate ApprovedBy(s: Storage, calls: seq<Call>, j: nat, id: nat) {
    && j < |calls| && calls[j].CallVote? && calls[j].id == id
    && Step(Run(s, calls[..j]), calls[j]).Committed?
    && id in Next(Run(s, calls[..j]), calls[j]).proposals
    && Next(Run(s, calls[..j]), calls[j]).proposals[id].status.Approved?
  }

  /** An approved proposal carries the timelock of the vote that approved it: that
  vote's time plus the duration configured at that moment. */
  lemma {:induction false} TimelockComesFromVote(admin: Address, members: set<Address>, calls: seq<Call>, id: nat) returns (j: nat)
    requires
      var s := Run(Init(admin, members), calls);
      id in s.proposals && s.proposals[id].status.Approved?
    ensures ApprovedBy(Init(admin, members), calls, j, id)
    ensures Run(Init(admin, members), calls).proposals[id].timelockEndsAt
            == Add64(calls[j].now, Run(Init(admin, members), calls[..j]).config.timelock)
  {
    var s0 := Init(admin, members);
    assert calls != [];
    var front, c := calls[..|calls| - 1], calls[|calls| - 1];
    var s := Run(s0, front);
    EveryRunConsistent(admin, members, front);
    if id !in s.proposals {
      NewProposalsArePending(s, c, id);
      assert false;
    } else {
      StepAdvances(s, c, id);
      if s.proposals[id].status.Approved? {
        j := TimelockComesFromVote(admin, members, front, id);
        assert front[..j] == calls[..j];
      } else {
        j := |calls| - 1;
      }
    }
  }

  /** Every committed execution comes after an approving vote in the same run, and
  not before that vote's time plus the timelock then configured. */
  lemma ExecutionWaitsForTimelock(admin: Address, members: set<Address>, calls: seq<Call>, k: nat, id: nat) returns (j: nat)
    requires k < |calls| && Dispatches(Run(Init(admin, members), calls[..k]), calls[k], id)
    ensures j < k && ApprovedBy(Init(admin, members), calls, j, id)
    ensures
      var timelock := Run(Init(admin, members), calls[..j]).config.timelock;
      && calls[k].now >= Add64(calls[j].now, timelock)
      && (calls[j].now + timelock < TWO_64 ==> calls[k].now >= calls[j].now + timelock)
  {
    j := TimelockComesFromVote(admin, members, calls[..k], id);
    assert calls[..k][..j] == calls[..j];
  }

  /** A resolving vote, by the proposal as it was counted. */
  lemma VoteResolves(s: Storage, c: Call) returns (counted: Proposal)
    requires c.CallVote? && Step(s, c).Committed?
    ensures c.id in s.proposals && c.id in Next(s, c).proposals && counted.status.Active?
    ensures Next(s, c).proposals[c.id] == Resolve(s, counted, c.now)
    ensures counted == CountVote(s.proposals[c.id].(status := Active), c.approve, if s.token.Some? then c.balance else 0)
  {
    counted := CountVote(s.proposals[c.id].(status := Active), c.approve, if s.token.Some? then c.balance else 0);
  }

  /** What a vote decided, in exact fractions: the votes cast met the quorum of the
  smaller of snapshot and membership, and the yes votes the threshold. */
  lemma ApprovalIsExact(s: Storage, c: Call)
    requires c.CallVote? && Step(s, c).Committed? && s.token.None?
    ensures c.id in Next(s, c).proposals
    ensures
      var p := Next(s, c).proposals[c.id];
      var cast := p.votesFor + p.votesAgainst;
      var quorate := cast * 10_000 >= Min(p.eligible, s.memberCount) * s.config.quorumBps;
      && (p.status.Approved? <==> quorate && p.votesFor * 10_000 >= s.config.thresholdBps * cast)
      && (p.status.Rejected? <==> quorate && p.votesFor * 10_000 < s.config.thresholdBps * cast)
  {
    var p := VoteResolves(s, c);
    CountQuorumExact(p.votesFor + p.votesAgainst, p.eligible, s.memberCount, s.config.quorumBps);
    ShareExact(p.votesFor, p.votesFor + p.votesAgainst, s.config.thresholdBps);
  }

  /** The weights of a proposal, and the products formed from them, fit `i128`. */
  predicate WeightsFit(s: Storage, p: Proposal) {
    && 0 <= p.forWeight && 0 <= p.againstWeight
    && (p.forWeight + p.againstWeight) * 10_000 <= I128_MAX
    && p.totalWeight * s.config.quorumBps + 9_999 <= I128_MAX
  }

  /** With a governance token the same holds of the weights, while they fit: those
  cast met the quorum of the snapshot, and the yes weight the threshold. */
  lemma WeightedApprovalIsExact(s: Storage, c: Call)
    requires c.CallVote? && Step(s, c).Committed? && s.token.Some?
    requires c.id in Next(s, c).proposals && WeightsFit(s, Next(s, c).proposals[c.id])
    ensures
      var p := Next(s, c).proposals[c.id];
      var cast := p.forWeight + p.againstWeight;
      var quorate := cast * 10_000 >= Max(p.totalWeight, 0) * s.config.quorumBps;
      var carried := cast > 0 && p.forWeight * 10_000 >= s.config.thresholdBps * cast;
      && (p.status.Approved? <==> quorate && carried)
      && (p.status.Rejected? <==> quorate && !carried)
  {
    var p := VoteResolves(s, c);
    WrapInRange(p.forWeight + p.againstWeight);
    WeightQuorumExact(p.forWeight + p.againstWeight, p.totalWeight, s.config.quorumBps);
    WeightShareExact(p.forWeight, p.forWeight + p.againstWeight, s.config.thresholdBps);
  }
}
