/** The retirement registry contract. */
module RetirementRegistry {
  import opened Numeric
  import opened Transactions
  import opened Sums
  import Spec = RegistrySpec
  import opened RegistryRefinement

  class Registry {
    var store: Spec.Storage

    constructor (admin: Address)
      ensures store == Spec.Init(admin)
    {
      store := Spec.Init(admin);
    }

    method RecordRetirement(caller: Address, retiree: Address, project: ProjectId, amount: int,
                            purpose: string, uri: string, now: nat) returns (r: Txn<nat>)
      modifies this
      ensures Answered(r, Spec.RecordRetirement(old(store), caller, retiree, project, amount, purpose, uri, now),
                       old(store), store)
    {
      var authorized := if caller in store.authorized then store.authorized[caller] else false;
      :- Require(caller == store.admin || authorized);
      :- Require(amount > 0);
      var newTotal :- Checked(store.totalRetired + amount);
      var id := store.recordCount + 1;
      store := store.(records := store.records[id := Spec.Record(id, retiree, project, caller, amount, purpose, uri, now)]);
      IndexRetirement(retiree, project, id);
      store := store.(totalRetired := newTotal);
      store := store.(recordCount := id);
      r := Committed(id);
    }

    method IndexRetirement(retiree: Address, project: ProjectId, id: nat)
      modifies this
      ensures
        var s := old(store);
        var i, j := Counter(s.retireeCount, retiree), Counter(s.projectCount, project);
        store == s.(retireeIndex := s.retireeIndex[(retiree, i) := id], retireeCount := s.retireeCount[retiree := i + 1],
                    projectIndex := s.projectIndex[(project, j) := id], projectCount := s.projectCount[project := j + 1])
    {
      var i := Counter(store.retireeCount, retiree);
      store := store.(retireeIndex := store.retireeIndex[(retiree, i) := id]);
      store := store.(retireeCount := store.retireeCount[retiree := i + 1]);
      var j := Counter(store.projectCount, project);
      store := store.(projectIndex := store.projectIndex[(project, j) := id]);
      store := store.(projectCount := store.projectCount[project := j + 1]);
    }

    method SetAuthorizedCaller(admin: Address, caller: Address, authorized: bool) returns (r: Txn<()>)
      modifies this
      ensures Settled(r, Spec.SetAuthorized(old(store), admin, caller, authorized), old(store), store)
    {
      if admin != store.admin {
        return Reverted;
      }
      store := store.(authorized := store.authorized[caller := authorized]);
      r := Committed(());
    }

    /** Walks the retiree's index and looks every record up; in a state that
    refines its log the answer is the page of the filtered log. */
    method GetRetirementsByRetiree(who: Address, offset: nat, limit: nat) returns (page: seq<Spec.Record>)
      requires offset < TWO_64 && limit < TWO_32
      ensures Refines(store) ==> page == Spec.Slice(Spec.ByRetiree(Spec.Log(store), who), offset, limit)
    {
      var total := Counter(store.retireeCount, who);
      var end := Min(Add64(offset, limit), total);
      page := [];
      var pos := offset;
      ghost var view, ok := ByRetireeView(store, who);
      while pos < end
        invariant offset <= pos && (offset <= end ==> pos <= end)
        invariant ok && offset <= end ==> page == view[offset..pos]
        invariant end < offset ==> page == []
      {
        if (who, pos) in store.retireeIndex {
          var id := store.retireeIndex[(who, pos)];
          if id in store.records {
            page := page + [store.records[id]];
          }
        }
        pos := pos + 1;
      }
    }

    method GetRetirementsByProject(project: ProjectId, offset: nat, limit: nat) returns (page: seq<Spec.Record>)
      requires offset < TWO_64 && limit < TWO_32
      ensures Refines(store) ==> page == Spec.Slice(Spec.ByProject(Spec.Log(store), project), offset, limit)
    {
      var total := Counter(store.projectCount, project);
      var end := Min(Add64(offset, limit), total);
      page := [];
      var pos := offset;
      ghost var view, ok := ByProjectView(store, project);
      while pos < end
        invariant offset <= pos && (offset <= end ==> pos <= end)
        invariant ok && offset <= end ==> page == view[offset..pos]
        invariant end < offset ==> page == []
      {
        if (project, pos) in store.projectIndex {
          var id := store.projectIndex[(project, pos)];
          if id in store.records {
            page := page + [store.records[id]];
          }
        }
        pos := pos + 1;
      }
    }
  }

  lemma {:induction false} FilterKeepsRecords(log: seq<Spec.Record>, who: Address, project: ProjectId)
    ensures forall r :: r in Spec.ByRetiree(log, who) <==> r in log && r.retiree == who
    ensures forall r :: r in Spec.ByProject(log, project) <==> r in log && r.project == project
  {
    if log != [] {
      FilterKeepsRecords(log[..|log| - 1], who, project);
      assert forall r :: r in log <==> r in log[..|log| - 1] || r == log[|log| - 1];
    }
  }

  /** Following the index of `k` leads to the records of `view`, one by one. */
  ghost predicate Leads<K(!new)>(s: Spec.Storage, index: map<(K, nat), nat>, count: map<K, nat>, k: K, view: seq<Spec.Record>) {
    && Counter(count, k) == |view|
    && forall i: nat :: i < |view| ==> (k, i) in index && index[(k, i)] in s.records && s.records[index[(k, i)]] == view[i]
  }

  lemma ByRetireeView(s: Spec.Storage, who: Address) returns (view: seq<Spec.Record>, ok: bool)
    ensures ok <==> Refines(s)
    ensures ok ==> view == Spec.ByRetiree(Spec.Log(s), who) && Leads(s, s.retireeIndex, s.retireeCount, who, view)
  {
    view, ok := [], Refines(s);
    if ok {
      view := Spec.ByRetiree(Spec.Log(s), who);
      FilterKeepsRecords(Spec.Log(s), who, 0);
      assert Lists(s.retireeIndex, s.retireeCount, who, view);
      assert forall i :: 0 <= i < |view| ==> view[i] in Spec.Log(s);
    }
  }

  lemma ByProjectView(s: Spec.Storage, project: ProjectId) returns (view: seq<Spec.Record>, ok: bool)
    ensures ok <==> Refines(s)
    ensures ok ==> view == Spec.ByProject(Spec.Log(s), project) && Leads(s, s.projectIndex, s.projectCount, project, view)
  {
    view, ok := [], Refines(s);
    if ok {
      view := Spec.ByProject(Spec.Log(s), project);
      FilterKeepsRecords(Spec.Log(s), 0, project);
      assert Lists(s.projectIndex, s.projectCount, project, view);
      assert forall i :: 0 <= i < |view| ==> view[i] in Spec.Log(s);
    }
  }
}
