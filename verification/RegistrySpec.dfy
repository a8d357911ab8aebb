/** The retirement registry: its storage and calls, and the log it stands for. */
module RegistrySpec {
  import opened Numeric
  import opened Transactions
  import opened Sums

  datatype Record = Record(id: nat, retiree: Address, project: ProjectId, token: Address,
                           amount: int, purpose: string, uri: string, timestamp: nat)

  /** Positional indexes: `retireeIndex[(who, i)]` is the id of that retiree's
  `i`-th record. */
  datatype Storage = Storage(admin: Address, authorized: map<Address, bool>,
                             recordCount: nat, totalRetired: int, records: map<nat, Record>,
                             retireeIndex: map<(Address, nat), nat>, retireeCount: map<Address, nat>,
                             projectIndex: map<(ProjectId, nat), nat>, projectCount: map<ProjectId, nat>)

  function Init(admin: Address): Storage {
    Storage(admin, map[], 0, 0, map[], map[], map[], map[], map[])
  }

  predicate Authorized(s: Storage, caller: Address) {
    caller == s.admin || (caller in s.authorized && s.authorized[caller])
  }

  /** Returns the new record's id. */
  function RecordRetirement(s: Storage, caller: Address, retiree: Address, project: ProjectId, amount: int,
                            purpose: string, uri: string, now: nat): Txn<(Storage, nat)>
  {
    if !Authorized(s, caller) then Reverted
    else
      :- Require(amount > 0);
      var total :- Checked(s.totalRetired + amount);
      var id := s.recordCount + 1;
      var i, j := Counter(s.retireeCount, retiree), Counter(s.projectCount, project);
      Committed((s.(records := s.records[id := Record(id, retiree, project, caller, amount, purpose, uri, now)],
                    retireeIndex := s.retireeIndex[(retiree, i) := id],
                    retireeCount := s.retireeCount[retiree := i + 1],
                    projectIndex := s.projectIndex[(project, j) := id],
                    projectCount := s.projectCount[project := j + 1],
                    totalRetired := total, recordCount := id), id))
  }

  function SetAuthorized(s: Storage, admin: Address, caller: Address, authorized: bool): Txn<Storage> {
    if admin != s.admin then Reverted
    else
      Committed(s.(authorized := s.authorized[caller := authorized]))
  }

  // ---- The log ----

  /** The records in the order they were made. */
  function Log(s: Storage): seq<Record>
    requires forall id :: 1 <= id <= s.recordCount ==> id in s.records
  {
    seq(s.recordCount, i requires 0 <= i < s.recordCount => s.records[i + 1])
  }

  function ByRetiree(log: seq<Record>, who: Address): seq<Record> {
    if log == [] then []
    else
      var r := log[|log| - 1];
      ByRetiree(log[..|log| - 1], who) + if r.retiree == who then [r] else []
  }

  function ByProject(log: seq<Record>, project: ProjectId): seq<Record> {
    if log == [] then []
    else
      var r := log[|log| - 1];
      ByProject(log[..|log| - 1], project) + if r.project == project then [r] else []
  }

  function Amounts(log: seq<Record>): int {
    if log == [] then 0 else Amounts(log[..|log| - 1]) + log[|log| - 1].amount
  }

  /** `page` of a query: the `u64` addition of offset and limit wraps. */
  function Slice<A>(list: seq<A>, offset: nat, limit: nat): seq<A> {
    var end := Min(Add64(offset, limit), |list|);
    if offset <= end then list[offset..end] else []
  }

  // ---- Runs ----

  datatype Call =
    | CallRecord(caller: Address, retiree: Address, project: ProjectId, amount: int, purpose: string, uri: string, now: nat)
    | CallSetAuthorized(admin: Address, caller: Address, authorized: bool)

  function Step(s: Storage, c: Call): Txn<Storage> {
    match c
    case CallRecord(caller, retiree, project, amount, purpose, uri, now) =>
      var r :- RecordRetirement(s, caller, retiree, project, amount, purpose, uri, now);
      Committed(r.0)
    case CallSetAuthorized(admin, caller, authorized) => SetAuthorized(s, admin, caller, authorized)
  }

  function Next(s: Storage, c: Call): Storage {
    var r := Step(s, c);
    if r.Committed? then r.value else s
  }

  function Run(s: Storage, calls: seq<Call>): Storage {
    if calls == [] then s else Next(Run(s, calls[..|calls| - 1]), calls[|calls| - 1])
  }
}
