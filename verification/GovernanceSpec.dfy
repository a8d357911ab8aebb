/** The governance contract: its storage and what every entry point does. */
module GovernanceSpec {
  import opened Numeric
  import opened Transactions
  import opened Lists

  datatype Config = Config(votingPeriod: nat, timelock: nat, thresholdBps: nat, quorumBps: nat,
                           minDeposit: int, maxActive: nat)
  {
    predicate Valid() {
      && 3_600 <= votingPeriod <= 2_592_000
      && timelock <= 604_800
      && 1 <= thresholdBps <= 10_000
      && quorumBps <= 10_000
      && 0 <= minDeposit
      && 1 <= maxActive <= 100
    }
  }

  datatype Status = Pending | Active | Approved | Executed | Cancelled | Rejected | Expired {
    /** Votes are still taken. */
    predicate Votable() {
      Pending? || Active?
    }

    /** The proposal occupies a slot. */
    predicate Live() {
      Votable() || Approved?
    }

    function Rank(): nat {
      match this
      case Pending => 0
      case Active => 1
      case Approved => 2
      case _ => 3
    }
  }

  datatype Action = Action(target: Address, operation: string)

  datatype Proposal = Proposal(
    id: nat, proposer: Address, title: string, actions: seq<Action>, partialAllowed: bool, results: seq<bool>,
    votesFor: nat, votesAgainst: nat, eligible: nat,
    totalWeight: int, forWeight: int, againstWeight: int,
    status: Status, createdAt: nat, votingEndsAt: nat, timelockEndsAt: nat)

  datatype Storage = Storage(admin: Address, config: Config, members: set<Address>, memberCount: nat,
                             proposals: map<nat, Proposal>, proposalCount: nat, active: seq<nat>,
                             voted: set<(nat, Address)>, token: Option<Address>)

  const DEFAULT_CONFIG: Config := Config(604_800, 86_400, 6_000, 5_000, 1_000, 10)

  function Members(list: seq<Address>): set<Address> {
    if list == [] then {} else Members(list[..|list| - 1]) + {list[|list| - 1]}
  }

  function Init(admin: Address, members: set<Address>): Storage {
    Storage(admin, DEFAULT_CONFIG, members, |members|, map[], 0, [], {}, None)
  }

  /** `supply` is the governance token's answer; without one the members count. */
  function Propose(s: Storage, proposer: Address, title: string, actions: seq<Action>, partialAllowed: bool,
                   now: nat, supply: Option<int>): Txn<(Storage, nat)>
  {
    if proposer !in s.members then Reverted
    else
      :- Require(|s.active| < s.config.maxActive);
      :- Require(title != "");
      var id := s.proposalCount + 1;
      var weight := if s.token.Some? && supply.Some? then supply.value else s.memberCount;
      var p := Proposal(id, proposer, title, actions, partialAllowed, [], 0, 0, s.memberCount, weight, 0, 0,
                        Pending, now, Add64(now, s.config.votingPeriod), 0);
      Committed((s.(proposals := s.proposals[id := p], active := s.active + [id], proposalCount := id), id))
  }

  function CountQuorum(eligible: nat, members: nat, bps: nat): nat {
    var voters := Min(eligible, members);
    if voters == 0 then 0 else (voters * bps + 10_000 - 1) / 10_000
  }

  /** Weights are `i128` values whose sums and products wrap. */
  function WeightQuorum(total: int, bps: nat): int {
    if total > 0 then TruncDiv(Wrap128(total * bps + 10_000 - 1), 10_000) else 0
  }

  predicate WeightShareReached(yes: int, total: int, bps: nat) {
    total > 0 && TruncDiv(Wrap128(yes * 10_000), total) >= bps
  }

  function WeightCast(p: Proposal): int {
    Wrap128(p.forWeight + p.againstWeight)
  }

  /** The share in basis points, rounded down, reaches the threshold. */
  predicate ShareReached(yes: int, total: int, bps: nat) {
    total > 0 && TruncDiv(yes * 10_000, total) >= bps
  }

  predicate QuorumReached(s: Storage, p: Proposal) {
    if s.token.Some? then WeightCast(p) >= WeightQuorum(p.totalWeight, s.config.quorumBps)
    else p.votesFor + p.votesAgainst >= CountQuorum(p.eligible, s.memberCount, s.config.quorumBps)
  }

  predicate MajorityReached(s: Storage, p: Proposal) {
    if s.token.Some? then WeightShareReached(p.forWeight, WeightCast(p), s.config.thresholdBps)
    else ShareReached(p.votesFor, p.votesFor + p.votesAgainst, s.config.thresholdBps)
  }

  function CountVote(p: Proposal, approve: bool, weight: int): Proposal {
    if approve then p.(votesFor := p.votesFor + 1, forWeight := Wrap128(p.forWeight + weight))
    else p.(votesAgainst := p.votesAgainst + 1, againstWeight := Wrap128(p.againstWeight + weight))
  }

  /** What a counted vote does to the proposal: nothing yet, approval with a
  timelock, or rejection. */
  function Resolve(s: Storage, p: Proposal, now: nat): Proposal {
    if !QuorumReached(s, p) then p
    else if MajorityReached(s, p) then p.(status := Approved, timelockEndsAt := Add64(now, s.config.timelock))
    else p.(status := Rejected)
  }

  /** `balance` is the governance token's answer for the voter, if it has one. */
  function Vote(s: Storage, voter: Address, id: nat, approve: bool, now: nat, balance: int): Txn<Storage> {
    if voter !in s.members then Reverted
    else
      :- Require(id in s.proposals);
      var p0 := s.proposals[id];
      :- Require(p0.status.Votable());
      :- Require((id, voter) !in s.voted);
      :- Require(now <= p0.votingEndsAt);
      var counted := CountVote(p0.(status := Active), approve, if s.token.Some? then balance else 0);
      var p := Resolve(s, counted, now);
      Committed(s.(voted := s.voted + {(id, voter)}, proposals := s.proposals[id := p],
                   active := if p.status.Rejected? then Without(s.active, id) else s.active))
  }

  /** `outcomes[i]` says whether the call of action `i` succeeds. */
  predicate Succeeds(outcomes: seq<bool>, i: nat) {
    i < |outcomes| && outcomes[i]
  }

  function Results(actions: seq<Action>, outcomes: seq<bool>): seq<bool> {
    seq(|actions|, i requires 0 <= i < |actions| => Succeeds(outcomes, i))
  }

  function Execute(s: Storage, caller: Address, id: nat, now: nat, outcomes: seq<bool>): Txn<Storage> {
    if caller !in s.members then Reverted
    else
      :- Require(id in s.proposals);
      var p := s.proposals[id];
      :- Require(p.status == Approved);
      :- Require(p.timelockEndsAt <= now);
      :- Require(p.partialAllowed || forall i :: 0 <= i < |p.actions| ==> Succeeds(outcomes, i));
      var done := p.(status := Executed, results := if p.partialAllowed then Results(p.actions, outcomes) else p.results);
      Committed(s.(active := Without(s.active, id), proposals := s.proposals[id := done]))
  }

  function CancelProposal(s: Storage, caller: Address, id: nat): Txn<Storage> {
    if id !in s.proposals then Reverted
    else
      var p := s.proposals[id];
      :- Require(caller == s.admin || caller == p.proposer);
      :- Require(p.status.Votable() || (p.status.Approved? && caller == s.admin));
      Committed(s.(active := Without(s.active, id), proposals := s.proposals[id := p.(status := Cancelled)]))
  }

  function ExpireProposal(s: Storage, id: nat, now: nat): Txn<Storage> {
    if id !in s.proposals then Reverted
    else
      var p := s.proposals[id];
      :- Require(p.status.Votable());
      :- Require(p.votingEndsAt < now);
      Committed(s.(active := Without(s.active, id), proposals := s.proposals[id := p.(status := Expired)]))
  }

  function UpdateConfig(s: Storage, admin: Address, config: Config): Txn<Storage> {
    if admin != s.admin then Reverted
    else
      :- Require(config.Valid());
      Committed(s.(config := config))
  }

  function AddMember(s: Storage, admin: Address, member: Address): Txn<Storage> {
    if admin != s.admin then Reverted
    else
      :- Require(member !in s.members);
      Committed(s.(members := s.members + {member}, memberCount := s.memberCount + 1))
  }

  function RemoveMember(s: Storage, admin: Address, member: Address): Txn<Storage> {
    if admin != s.admin then Reverted
    else
      :- Require(member in s.members);
      :- Require(s.memberCount > 1);
      Committed(s.(members := s.members - {member}, memberCount := s.memberCount - 1))
  }

  /** `answers`: the token replied to a query of its supply. */
  function SetToken(s: Storage, admin: Address, token: Address, answers: bool): Txn<Storage> {
    if admin != s.admin then Reverted
    else
      :- Require(answers);
      Committed(s.(token := Some(token)))
  }

  function TransferAdmin(s: Storage, admin: Address, newAdmin: Address): Txn<Storage> {
    if admin != s.admin then Reverted
    else
      Committed(s.(admin := newAdmin))
  }

  // ---- Runs ----

  datatype Call =
    | CallPropose(proposer: Address, title: string, actions: seq<Action>, partialAllowed: bool, now: nat, supply: Option<int>)
    | CallVote(voter: Address, id: nat, approve: bool, now: nat, balance: int)
    | CallExecute(caller: Address, id: nat, now: nat, outcomes: seq<bool>)
    | CallCancel(caller: Address, id: nat)
    | CallExpire(id: nat, now: nat)
    | CallUpdateConfig(admin: Address, config: Config)
    | CallAddMember(admin: Address, member: Address)
    | CallRemoveMember(admin: Address, member: Address)
    | CallSetToken(admin: Address, token: Address, answers: bool)
    | CallTransferAdmin(admin: Address, newAdmin: Address)

  function Step(s: Storage, c: Call): Txn<Storage> {
    match c
    case CallPropose(proposer, title, actions, partialAllowed, now, supply) =>
      var r :- Propose(s, proposer, title, actions, partialAllowed, now, supply);
      Committed(r.0)
    case CallVote(voter, id, approve, now, balance) => Vote(s, voter, id, approve, now, balance)
    case CallExecute(caller, id, now, outcomes) => Execute(s, caller, id, now, outcomes)
    case CallCancel(caller, id) => CancelProposal(s, caller, id)
    case CallExpire(id, now) => ExpireProposal(s, id, now)
    case CallUpdateConfig(admin, config) => UpdateConfig(s, admin, config)
    case CallAddMember(admin, member) => AddMember(s, admin, member)
    case CallRemoveMember(admin, member) => RemoveMember(s, admin, member)
    case CallSetToken(admin, token, answers) => SetToken(s, admin, token, answers)
    case CallTransferAdmin(admin, newAdmin) => TransferAdmin(s, admin, newAdmin)
  }

  function Next(s: Storage, c: Call): Storage {
    var r := Step(s, c);
    if r.Committed? then r.value else s
  }

  function Run(s: Storage, calls: seq<Call>): Storage {
    if calls == [] then s else Next(Run(s, calls[..|calls| - 1]), calls[|calls| - 1])
  }
}
