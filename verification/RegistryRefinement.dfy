/** The registry's indexes are views of one log, in every reachable state. */
module RegistryRefinement {
  import opened Numeric
  import opened Transactions
  import opened Sums
  import opened RegistrySpec

  /** `index` and `count` list exactly the ids of `view`, in order. */
  ghost predicate Lists<K(!new)>(index: map<(K, nat), nat>, count: map<K, nat>, k: K, view: seq<Record>) {
    && Counter(count, k) == |view|
    && forall i: nat :: i < |view| ==> (k, i) in index && index[(k, i)] == view[i].id
  }

  ghost predicate Numbered(s: Storage) {
    && (forall id :: id in s.records <==> 1 <= id <= s.recordCount)
    && (forall id :: id in s.records ==> s.records[id].id == id)
  }

  ghost predicate RetireesListed(s: Storage)
    requires Numbered(s)
  {
    forall who :: Lists(s.retireeIndex, s.retireeCount, who, ByRetiree(Log(s), who))
  }

  ghost predicate ProjectsListed(s: Storage)
    requires Numbered(s)
  {
    forall p :: Lists(s.projectIndex, s.projectCount, p, ByProject(Log(s), p))
  }

  /** Ids are the numbers from one up, the total is that of the log, and both
  indexes are what filtering the log would give. */
  ghost predicate Refines(s: Storage) {
    && Numbered(s)
    && s.totalRetired == Amounts(Log(s)) && 0 <= s.totalRetired <= I128_MAX
    && RetireesListed(s)
    && ProjectsListed(s)
  }

  lemma RecordAppends(s: Storage, c: Call)
    requires Numbered(s) && c.CallRecord? && Step(s, c).Committed?
    ensures
      var t := Step(s, c).value;
      var r := Record(s.recordCount + 1, c.retiree, c.project, c.caller, c.amount, c.purpose, c.uri, c.now);
      && Numbered(t)
      && t.records[r.id] == r
      && Log(t) == Log(s) + [r]
  {
  }

  /** Appending under one key extends that key's list and no other. */
  lemma ListsPush<K(!new)>(index: map<(K, nat), nat>, count: map<K, nat>, at: K, r: Record, k: K, view: seq<Record>)
    requires Lists(index, count, k, view)
    ensures Lists(index[(at, Counter(count, at)) := r.id], count[at := Counter(count, at) + 1], k,
                  view + if k == at then [r] else [])
  {
  }

  lemma RetireesStayListed(s: Storage, c: Call)
    requires Numbered(s) && RetireesListed(s) && c.CallRecord? && Step(s, c).Committed?
    ensures Numbered(Step(s, c).value) && RetireesListed(Step(s, c).value)
  {
    RecordAppends(s, c);
    var t := Step(s, c).value;
    var log := Log(t);
    assert log[..|log| - 1] == Log(s);
    forall who ensures Lists(t.retireeIndex, t.retireeCount, who, ByRetiree(log, who)) {
      ListsPush(s.retireeIndex, s.retireeCount, c.retiree, log[|log| - 1], who, ByRetiree(Log(s), who));
    }
  }

  lemma ProjectsStayListed(s: Storage, c: Call)
    requires Numbered(s) && ProjectsListed(s) && c.CallRecord? && Step(s, c).Committed?
    ensures Numbered(Step(s, c).value) && ProjectsListed(Step(s, c).value)
  {
    RecordAppends(s, c);
    var t := Step(s, c).value;
    var log := Log(t);
    assert log[..|log| - 1] == Log(s);
    forall p ensures Lists(t.projectIndex, t.projectCount, p, ByProject(log, p)) {
      ListsPush(s.projectIndex, s.projectCount, c.project, log[|log| - 1], p, ByProject(Log(s), p));
    }
  }

  /** No call breaks the refinement or rewrites the log. */
  lemma StepRefines(s: Storage, c: Call)
    requires Refines(s)
    ensures Refines(Next(s, c)) && Log(s) <= Log(Next(s, c))
    ensures s.totalRetired <= Next(s, c).totalRetired
  {
    if c.CallRecord? && Step(s, c).Committed? {
      RecordAppends(s, c);
      RetireesStayListed(s, c);
      ProjectsStayListed(s, c);
      var log := Log(Next(s, c));
      assert log[..|log| - 1] == Log(s);
    } else {
      assert Log(Next(s, c)) == Log(s);
    }
  }

  /** Every run refines its log. */
  lemma {:induction false} IndexesRefineLog(admin: Address, calls: seq<Call>)
    ensures Refines(Run(Init(admin), calls))
  {
    if calls != [] {
      IndexesRefineLog(admin, calls[..|calls| - 1]);
      StepRefines(Run(Init(admin), calls[..|calls| - 1]), calls[|calls| - 1]);
    }
  }

  /** The log only grows: what was recorded stays as it is. */
  lemma {:induction false} LogIsAppendOnly(admin: Address, calls: seq<Call>, n: nat)
    requires n <= |calls|
    ensures Refines(Run(Init(admin), calls[..n])) && Refines(Run(Init(admin), calls))
    ensures Log(Run(Init(admin), calls[..n])) <= Log(Run(Init(admin), calls))
    ensures Run(Init(admin), calls[..n]).totalRetired <= Run(Init(admin), calls).totalRetired
  {
    if n == |calls| {
      assert calls[..n] == calls;
      IndexesRefineLog(admin, calls);
    } else {
      var front := calls[..|calls| - 1];
      LogIsAppendOnly(admin, front, n);
      assert front[..n] == calls[..n];
      StepRefines(Run(Init(admin), front), calls[|calls| - 1]);
    }
  }

  /** Only an authorized caller records, and a record says who; only the admin
  authorizes. */
  lemma RecordsAreByRight(s: Storage, c: Call)
    requires Refines(s)
    ensures Log(Next(s, c)) != Log(s) ==>
              && c.CallRecord? && 0 < c.amount
              && (c.caller == s.admin || (c.caller in s.authorized && s.authorized[c.caller]))
              && Log(Next(s, c)) == Log(s) + [Record(|Log(s)| + 1, c.retiree, c.project, c.caller, c.amount, c.purpose, c.uri, c.now)]
    ensures Next(s, c).authorized != s.authorized ==>
              c.CallSetAuthorized? && c.admin == s.admin && Next(s, c).authorized == s.authorized[c.caller := c.authorized]
  {
    if c.CallRecord? && Step(s, c).Committed? {
      RecordAppends(s, c);
    }
    StepRefines(s, c);
  }

  // ---- Pages ----

  /** While `offset + limit` fits `u64` a page is the plain slice; otherwise it is
  empty, as `offset` then exceeds any end. */
  lemma SliceIsPage<A>(list: seq<A>, offset: nat, limit: nat)
    requires offset < TWO_64 && limit < TWO_32
    ensures offset + limit < TWO_64 ==>
              Slice(list, offset, limit) == list[Min(offset, |list|)..Min(offset + limit, |list|)]
    ensures offset + limit >= TWO_64 ==> Slice(list, offset, limit) == []
  {
    if offset + limit >= TWO_64 {
      DivUnique(offset + limit, TWO_64, 1);
      assert Add64(offset, limit) == offset + limit - TWO_64;
    } else {
      assert Add64(offset, limit) == offset + limit;
    }
  }

  /** The first `n` pages of `limit` entries each, put together. */
  function Pages<A>(list: seq<A>, limit: nat, n: nat): seq<A> {
    if n == 0 then [] else Pages(list, limit, n - 1) + Slice(list, (n - 1) * limit, limit)
  }

  lemma AppendSlice<A>(list: seq<A>, offset: nat, limit: nat)
    requires offset + limit < TWO_64 && limit < TWO_32
    ensures list[..Min(offset, |list|)] + Slice(list, offset, limit) == list[..Min(offset + limit, |list|)]
  {
    SliceIsPage(list, offset, limit);
  }

  /** Paging through a list rebuilds it. */
  lemma {:induction false} PagesRebuild<A>(list: seq<A>, limit: nat, n: nat)
    requires 0 < limit < TWO_32 && n * limit < TWO_64
    ensures Pages(list, limit, n) == list[..Min(n * limit, |list|)]
    ensures |list| <= n * limit ==> Pages(list, limit, n) == list
  {
    if n > 0 {
      var offset := (n - 1) * limit;
      assert offset + limit == n * limit;
      PagesRebuild(list, limit, n - 1);
      AppendSlice(list, offset, limit);
    }
  }
}
