/** The governance contract. */
module Governance {
  import opened Numeric
  import opened Transactions
  import opened Lists
  import Spec = GovernanceSpec

  class Contract {
    var store: Spec.Storage

    /** Members are counted as they are first seen. */
    constructor (admin: Address, initial: seq<Address>)
      ensures store == Spec.Init(admin, Spec.Members(initial))
    {
      store := Spec.Init(admin, {});
      new;
      for i := 0 to |initial|
        invariant store == Spec.Init(admin, Spec.Members(initial[..i]))
      {
        assert initial[..i + 1][..i] == initial[..i];
        if initial[i] !in store.members {
          store := store.(members := store.members + {initial[i]}, memberCount := store.memberCount + 1);
        } else {
          assert store.members + {initial[i]} == store.members;
        }
      }
      assert initial[..|initial|] == initial;
    }

    method RemoveFromActive(id: nat)
      modifies this
      ensures store == old(store).(active := Without(old(store).active, id))
    {
      var kept := Remove(store.active, id);
      store := store.(active := kept);
    }

    method SaveProposal(id: nat, p: Spec.Proposal)
      modifies this
      ensures store == old(store).(proposals := old(store).proposals[id := p])
    {
      store := store.(proposals := store.proposals[id := p]);
    }

    method Propose(proposer: Address, title: string, actions: seq<Spec.Action>, partialAllowed: bool,
                   now: nat, supply: Option<int>) returns (r: Txn<nat>)
      modifies this
      ensures Answered(r, Spec.Propose(old(store), proposer, title, actions, partialAllowed, now, supply), old(store), store)
    {
      if proposer !in store.members {
        return Reverted;
      }
      var id := store.proposalCount + 1;
      if |store.active| >= store.config.maxActive {
        return Reverted;
      }
      :- Require(|title| > 0);
      var weight := if store.token.None? || supply.None? then store.memberCount else supply.value;
      SaveProposal(id, Spec.Proposal(id, proposer, title, actions, partialAllowed, [], 0, 0, store.memberCount,
                                 weight, 0, 0, Spec.Pending, now, Add64(now, store.config.votingPeriod), 0));
      store := store.(active := store.active + [id]);
      store := store.(proposalCount := id);
      r := Committed(id);
    }

    /** A late vote writes the expired status and then panics, which undoes it. */
    method Vote(voter: Address, id: nat, approve: bool, now: nat, balance: int) returns (r: Txn<()>)
      modifies this
      ensures Settled(r, Spec.Vote(old(store), voter, id, approve, now, balance), old(store), store)
    {
      if voter !in store.members {
        return Reverted;
      }
      :- Require(id in store.proposals);
      var saved := store;
      var p := store.proposals[id];
      if p.status == Spec.Pending {
        p := p.(status := Spec.Active);
      }
      :- Require(p.status == Spec.Active);
      :- Require((id, voter) !in store.voted);
      if now > p.votingEndsAt {
        SaveProposal(id, p.(status := Spec.Expired));
        store := saved;
        return Reverted;
      }
      RecordVote(voter, id, p, approve, now, balance);
      r := Committed(());
    }

    method RecordVote(voter: Address, id: nat, active: Spec.Proposal, approve: bool, now: nat, balance: int)
      requires id in store.proposals && active.status.Active?
      modifies this
      ensures
        var counted := Spec.CountVote(active, approve, if old(store).token.Some? then balance else 0);
        var q := Spec.Resolve(old(store), counted, now);
        store == old(store).(voted := old(store).voted + {(id, voter)}, proposals := old(store).proposals[id := q],
                             active := if q.status.Rejected? then Without(old(store).active, id) else old(store).active)
    {
      var weight := if store.token.None? then 0 else balance;
      var p := active;
      if approve {
        p := p.(votesFor := p.votesFor + 1, forWeight := Wrap128(p.forWeight + weight));
      } else {
        p := p.(votesAgainst := p.votesAgainst + 1, againstWeight := Wrap128(p.againstWeight + weight));
      }
      ghost var before := store;
      assert p == Spec.CountVote(active, approve, weight);
      store := store.(voted := store.voted + {(id, voter)});
      SaveProposal(id, p);
      assert Spec.QuorumReached(store, p) == Spec.QuorumReached(before, p);
      if Spec.QuorumReached(store, p) {
        assert Spec.Resolve(store, p, now) == Spec.Resolve(before, p, now);
        ResolveProposal(id, p, now);
      }
    }

    /** The vote that completes the quorum decides. */
    method ResolveProposal(id: nat, p: Spec.Proposal, now: nat)
      requires id in store.proposals && store.proposals[id] == p && Spec.QuorumReached(store, p)
      modifies this
      ensures
        var q := Spec.Resolve(old(store), p, now);
        store == old(store).(proposals := old(store).proposals[id := q],
                             active := if q.status.Rejected? then Without(old(store).active, id) else old(store).active)
    {
      if Spec.MajorityReached(store, p) {
        SaveProposal(id, p.(status := Spec.Approved, timelockEndsAt := Add64(now, store.config.timelock)));
      } else {
        SaveProposal(id, p.(status := Spec.Rejected));
        RemoveFromActive(id);
      }
    }

    /** The slot is freed before the actions are dispatched; in atomic mode the
    first failing action takes that back. */
    method Execute(caller: Address, id: nat, now: nat, outcomes: seq<bool>) returns (r: Txn<()>)
      modifies this
      ensures Settled(r, Spec.Execute(old(store), caller, id, now, outcomes), old(store), store)
    {
      if caller !in store.members {
        return Reverted;
      }
      :- Require(id in store.proposals);
      var saved := store;
      var p := store.proposals[id];
      :- Require(p.status == Spec.Approved);
      :- Require(now >= p.timelockEndsAt);
      RemoveFromActive(id);
      var results: seq<bool> := [];
      for i := 0 to |p.actions|
        invariant store == saved.(active := Without(saved.active, id))
        invariant p.partialAllowed ==> results == Spec.Results(p.actions[..i], outcomes)
        invariant !p.partialAllowed ==> forall k :: 0 <= k < i ==> Spec.Succeeds(outcomes, k)
      {
        var ok := Spec.Succeeds(outcomes, i);
        if p.partialAllowed {
          results := results + [ok];
        } else if !ok {
          store := saved;
          return Reverted;
        }
      }
      assert p.actions[..|p.actions|] == p.actions;
      p := p.(status := Spec.Executed);
      if p.partialAllowed {
        p := p.(results := results);
      }
      SaveProposal(id, p);
      r := Committed(());
    }

    method CancelProposal(caller: Address, id: nat) returns (r: Txn<()>)
      modifies this
      ensures Settled(r, Spec.CancelProposal(old(store), caller, id), old(store), store)
    {
      if id !in store.proposals {
        return Reverted;
      }
      var p := store.proposals[id];
      var isAdmin, isProposer := caller == store.admin, caller == p.proposer;
      :- Require(isAdmin || isProposer);
      var cancellable := if isAdmin then p.status == Spec.Approved || p.status == Spec.Active || p.status == Spec.Pending
                         else p.status == Spec.Active || p.status == Spec.Pending;
      :- Require(cancellable);
      SaveProposal(id, p.(status := Spec.Cancelled));
      RemoveFromActive(id);
      r := Committed(());
    }

    method ExpireProposal(id: nat, now: nat) returns (r: Txn<()>)
      modifies this
      ensures Settled(r, Spec.ExpireProposal(old(store), id, now), old(store), store)
    {
      if id !in store.proposals {
        return Reverted;
      }
      var p := store.proposals[id];
      if p.status != Spec.Active && p.status != Spec.Pending {
        return Reverted;
      }
      if now <= p.votingEndsAt {
        return Reverted;
      }
      SaveProposal(id, p.(status := Spec.Expired));
      RemoveFromActive(id);
      r := Committed(());
    }

    method UpdateConfig(admin: Address, config: Spec.Config) returns (r: Txn<()>)
      modifies this
      ensures Settled(r, Spec.UpdateConfig(old(store), admin, config), old(store), store)
    {
      if admin != store.admin {
        return Reverted;
      }
      :- Require(3_600 <= config.votingPeriod <= 2_592_000);
      :- Require(config.timelock <= 604_800);
      :- Require(1 <= config.thresholdBps <= 10_000);
      :- Require(config.quorumBps <= 10_000);
      :- Require(config.minDeposit >= 0);
      :- Require(1 <= config.maxActive <= 100);
      store := store.(config := config);
      r := Committed(());
    }

    method AddMember(admin: Address, member: Address) returns (r: Txn<()>)
      modifies this
      ensures Settled(r, Spec.AddMember(old(store), admin, member), old(store), store)
    {
      if admin != store.admin {
        return Reverted;
      }
      :- Require(member !in store.members);
      store := store.(members := store.members + {member});
      store := store.(memberCount := store.memberCount + 1);
      r := Committed(());
    }

    method RemoveMember(admin: Address, member: Address) returns (r: Txn<()>)
      modifies this
      ensures Settled(r, Spec.RemoveMember(old(store), admin, member), old(store), store)
    {
      if admin != store.admin {
        return Reverted;
      }
      :- Require(member in store.members);
      var count := store.memberCount;
      :- Require(count > 1);
      store := store.(members := store.members - {member});
      store := store.(memberCount := count - 1);
      r := Committed(());
    }
  }
}
