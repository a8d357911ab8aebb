/** The verification oracle: its storage and what every entry point does to it. */
module OracleSpec {
  import opened Numeric
  import opened Transactions
  import opened Sums
  import opened Lists
  import opened Banks
  import opened Bytes
  import opened OracleData
  import opened CreditFormula
  import opened HonestMajority
  import opened Slashing
  import opened Preimages

  datatype Phase = Commit | Reveal | Finalized

  datatype Window = Window(phase: Phase, openedAt: nat, revealLedger: nat, subs: seq<Submission>, finalized: bool)

  datatype Stake = Stake(amount: int, unstakeAt: Option<nat>)

  datatype Commitment = Commitment(digest: Digest, nonce: nat)

  datatype SlashRecord = SlashRecord(reason: nat, timestamp: nat)

  /** The whitelist, its listing and its count. */
  datatype Roster = Roster(list: seq<Address>, active: set<Address>, count: nat)

  type Key = (ProjectId, Address)

  /** Which oracle did what in the current window of which project. */
  datatype Markers = Markers(commitments: map<Key, Commitment>, submitted: set<Key>, revealed: set<Key>)

  datatype StakeBook = StakeBook(stakes: map<Address, Stake>, slashes: map<Address, SlashRecord>, missed: map<Address, nat>)

  datatype History = History(last: map<ProjectId, Result>, results: map<(ProjectId, nat), Result>,
                             summaries: map<(ProjectId, nat), Summary>, counts: map<ProjectId, nat>,
                             submitCount: map<Address, nat>, finalizedCount: map<Address, nat>)

  datatype Storage = Storage(admin: Address, paused: bool, config: OracleConfig, roster: Roster,
                             submissions: nat, nonces: map<Key, nat>, book: StakeBook,
                             open: seq<ProjectId>, windows: map<ProjectId, Window>, marks: Markers,
                             projects: map<ProjectId, ProjectConfig>, history: History)

  datatype System = System(store: Storage, bank: Bank)

  /** The contract's own address and the hash the host provides. */
  datatype Env = Env(self: Address, sha: Bytes -> Digest)

  datatype Now = Now(timestamp: nat, ledger: nat)

  function DefaultConfig(stakingToken: Address, treasury: Address): OracleConfig {
    OracleConfig(3, 10, 600, 700, 50, 50, 300, 10, 20, stakingToken, treasury, 0, 86_400,
                 300, 0, 60, 1000, 0, I128_MAX, 3600, 20, 0)
  }

  function Init(admin: Address, stakingToken: Address, treasury: Address): Storage {
    Storage(admin, false, DefaultConfig(stakingToken, treasury), Roster([], {}, 0), 0, map[],
            StakeBook(map[], map[], map[]), [], map[], Markers(map[], {}, {}), map[],
            History(map[], map[], map[], map[], map[], map[]))
  }

  // ---- Oracles and configuration ----

  function StakeOf(b: StakeBook, oracle: Address): Stake {
    if oracle in b.stakes then b.stakes[oracle] else Stake(0, None)
  }

  predicate HasStake(s: Storage, oracle: Address) {
    s.config.minStake > 0 ==> StakeOf(s.book, oracle).amount >= s.config.minStake
  }

  function AddOracle(s: Storage, admin: Address, oracle: Address): Txn<Storage> {
    if admin != s.admin then Reverted
    else
      :- Require(oracle !in s.roster.active);
      :- Require(s.roster.count < s.config.maxOracles);
      :- Require(HasStake(s, oracle));
      Committed(s.(roster := Roster(s.roster.list + [oracle], s.roster.active + {oracle}, s.roster.count + 1)))
  }

  predicate HasOpenSubmissions(s: Storage, oracle: Address) {
    exists i :: 0 <= i < |s.open|
      && ((s.open[i], oracle) in s.marks.commitments || (s.open[i], oracle) in s.marks.revealed)
  }

  function RemoveOracle(s: Storage, admin: Address, oracle: Address): Txn<Storage> {
    if admin != s.admin then Reverted
    else
      :- Require(oracle in s.roster.active);
      var stake := StakeOf(s.book, oracle).amount;
      :- Require(stake <= 0 || (s.config.minStake > 0 && stake < s.config.minStake));
      :- Require(s.config.minOracles < s.roster.count);
      :- Require(!HasOpenSubmissions(s, oracle));
      Committed(s.(roster := Roster(Without(s.roster.list, oracle), s.roster.active - {oracle}, s.roster.count - 1)))
  }

  function UpdateConfig(s: Storage, admin: Address, config: OracleConfig): Txn<Storage> {
    if admin != s.admin then Reverted
    else
      :- Require(config.Valid());
      :- Require(config.minOracles <= s.roster.count);
      Committed(s.(config := config))
  }

  function SetProjectConfig(s: Storage, admin: Address, project: ProjectId, pc: ProjectConfig): Txn<Storage> {
    if admin != s.admin then Reverted
    else
      Committed(s.(projects := s.projects[project := pc]))
  }

  // ---- Windows ----

  function AddOpen(open: seq<ProjectId>, project: ProjectId, limit: nat): Txn<seq<ProjectId>> {
    if project in open then Committed(open)
    else
      :- Require(|open| < limit);
      Committed(open + [project])
  }

  predicate WindowActive(s: Storage, project: ProjectId) {
    project in s.windows && !s.windows[project].finalized
  }

  function FreshWindow(now: Now): Window {
    Window(Commit, now.timestamp, 0, [], false)
  }

  function OpenWindow(s: Storage, admin: Address, project: ProjectId, now: Now): Txn<Storage> {
    if admin != s.admin then Reverted
    else
      :- Require(!WindowActive(s, project));
      var open :- AddOpen(s.open, project, s.config.maxOpenWindows);
      Committed(s.(windows := s.windows[project := FreshWindow(now)], open := open))
  }

  function KeysOf(project: ProjectId, oracles: seq<Address>): set<Key> {
    set o | o in oracles :: (project, o)
  }

  function ClearAll(m: Markers, keys: set<Key>): Markers {
    Markers(m.commitments - keys, m.submitted - keys, m.revealed - keys)
  }

  function ClearReveals(m: Markers, keys: set<Key>): Markers {
    m.(commitments := m.commitments - keys, revealed := m.revealed - keys)
  }

  function Reporters(subs: seq<Submission>): seq<Address> {
    seq(|subs|, i requires 0 <= i < |subs| => subs[i].oracle)
  }

  /** Discards the window's submissions; the list of open projects is not touched. */
  function ResetWindow(s: Storage, admin: Address, project: ProjectId, now: Now): Txn<Storage> {
    if admin != s.admin then Reverted
    else
      :- Require(project in s.windows);
      var keys := KeysOf(project, Reporters(s.windows[project].subs)) + KeysOf(project, s.roster.list);
      Committed(s.(marks := ClearAll(s.marks, keys), windows := s.windows[project := FreshWindow(now)]))
  }

  // ---- Results ----

  /** What the project's token answers: its supply, its cap, and whether it lets
  the oracle mint. */
  datatype TokenView = TokenView(supply: int, maxSupply: int, accepts: bool)

  /** The split of a mint into the beneficiary's part and the protocol fee. */
  function MintShares(feeBps: nat, t: TokenView, total: int): Txn<(int, int)> {
    if total <= 0 then Committed((0, 0))
    else
      var remaining := Wrap128(t.maxSupply - t.supply);
      var mintable := if t.maxSupply > 0 then (if remaining <= 0 then 0 else Min(remaining, total)) else total;
      if mintable <= 0 then Committed((0, 0))
      else
        var scaled :- Checked(mintable * feeBps);
        :- Require(t.accepts);
        var fee := TruncDiv(scaled, 10_000);
        Committed((mintable - fee, fee))
  }

  function ProjectOf(s: Storage, project: ProjectId): Option<ProjectConfig> {
    if project in s.projects then Some(s.projects[project]) else None
  }

  function Bump(m: map<Address, nat>, subs: seq<Submission>): map<Address, nat> {
    if subs == [] then m
    else
      var front, o := Bump(m, subs[..|subs| - 1]), subs[|subs| - 1].oracle;
      front[o := Counter(front, o) + 1]
  }

  function Append(h: History, project: ProjectId, r: Result, subs: seq<Submission>): History {
    var at := Counter(h.counts, project);
    History(h.last[project := r], h.results[(project, at) := r], h.summaries[(project, at) := Project(r)],
            h.counts[project := at + 1], Bump(h.submitCount, subs), Bump(h.finalizedCount, subs))
  }

  /** The result of a window, before anything is stored. */
  function ResultOf(s: Storage, project: ProjectId, subs: seq<Submission>, now: Now, token: TokenView): Txn<Result> {
    var fin :- Finalize(s.config, ResolveBaselines(ProjectOf(s, project)), subs);
    var shares :- if project in s.projects then MintShares(s.config.feeBps, token, fin.total) else Committed((0, 0));
    Committed(Result(project, fin, shares.0, shares.1, |subs|, now.timestamp))
  }

  /** Stores the result, closes the window and takes the project off the list. */
  function Conclude(s: Storage, project: ProjectId, w: Window, now: Now, token: TokenView): Txn<(Storage, Result)> {
    var r :- ResultOf(s, project, w.subs, now, token);
    Committed((s.(windows := s.windows[project := w.(finalized := true)],
                  open := Without(s.open, project),
                  history := Append(s.history, project, r, w.subs)), r))
  }

  /** The stored entries at positions `start` up to `end`. */
  function Entries<T>(stored: map<(ProjectId, nat), T>, project: ProjectId, start: nat, end: nat): seq<T>
    decreases end
  {
    if end <= start then []
    else Entries(stored, project, start, end - 1) + if (project, end - 1) in stored then [stored[(project, end - 1)]] else []
  }

  /** The end of a page is a wrapping sum for results, a saturating one for
  summaries. */
  function ResultPage(h: History, project: ProjectId, offset: nat, limit: nat): seq<Result> {
    Entries(h.results, project, offset, Min(Add64(offset, limit), Counter(h.counts, project)))
  }

  function SummaryPage(h: History, project: ProjectId, offset: nat, limit: nat): seq<Summary> {
    Entries(h.summaries, project, offset, Min(Min(offset + limit, TWO_64 - 1), Counter(h.counts, project)))
  }

  // ---- Direct submission ----

  function NonceOf(s: Storage, project: ProjectId, oracle: Address): nat {
    Counter(s.nonces, (project, oracle))
  }

  /** A missing window comes into being in its reveal phase. */
  function WindowFor(s: Storage, project: ProjectId, now: Now): Window {
    if project in s.windows then s.windows[project] else Window(Reveal, now.timestamp, 0, [], false)
  }

  function AcceptDirect(s: Storage, oracle: Address, project: ProjectId, nonce: nat, reading: Sample, now: Now): Txn<Storage> {
    if oracle !in s.roster.active then Reverted
    else
      :- Require(HasStake(s, oracle));
      :- Require(reading.Plausible());
      :- Require(nonce == NonceOf(s, project, oracle) + 1);
      :- Require((project, oracle) !in s.marks.submitted);
      var w := WindowFor(s, project, now);
      :- Require(!w.finalized);
      var open :- AddOpen(s.open, project, s.config.maxOpenWindows);
      var sub := Submission(oracle, nonce, now.timestamp, reading);
      Committed(s.(nonces := s.nonces[(project, oracle) := nonce], submissions := s.submissions + 1, open := open,
                   windows := s.windows[project := w.(subs := w.subs + [sub])],
                   marks := s.marks.(submitted := s.marks.submitted + {(project, oracle)})))
  }

  function SubmitReading(s: Storage, oracle: Address, project: ProjectId, nonce: nat, reading: Sample,
                         now: Now, token: TokenView): Txn<(Storage, Option<Result>)>
  {
    var t :- AcceptDirect(s, oracle, project, nonce, reading, now);
    var w := t.windows[project];
    if |w.subs| >= s.config.minOracles then
      var done :- Conclude(t, project, w, now, token);
      Committed((done.0, Some(done.1)))
    else
      Committed((t, None))
  }

  // ---- Commit and reveal ----

  function CommitReading(s: Storage, oracle: Address, project: ProjectId, nonce: nat, digest: Digest): Txn<Storage> {
    if s.paused then Reverted
    else
      :- Require(oracle in s.roster.active);
      :- Require(HasStake(s, oracle));
      :- Require(nonce == NonceOf(s, project, oracle) + 1);
      :- Require(WindowActive(s, project));
      :- Require(s.windows[project].phase.Commit?);
      :- Require((project, oracle) !in s.marks.commitments);
      Committed(s.(nonces := s.nonces[(project, oracle) := nonce],
                   marks := s.marks.(commitments := s.marks.commitments[(project, oracle) := Commitment(digest, nonce)])))
  }

  predicate HasCommit(s: Storage, project: ProjectId) {
    exists i :: 0 <= i < |s.roster.list| && (project, s.roster.list[i]) in s.marks.commitments
  }

  /** Both deadlines are sums of machine integers, which may wrap. */
  function BeginReveal(s: Storage, project: ProjectId, now: Now): Txn<Storage> {
    if !WindowActive(s, project) then Reverted
    else
      var w := s.windows[project];
      :- Require(w.phase.Commit?);
      :- Require(Add64(w.openedAt, s.config.commitPhaseSecs) <= now.timestamp);
      :- Require(HasCommit(s, project));
      Committed(s.(windows := s.windows[project := w.(phase := Reveal, revealLedger := now.ledger)]))
  }

  function RevealOpens(s: Storage, w: Window): int {
    Add32(w.revealLedger, s.config.minRevealLedgers)
  }

  function RevealCloses(s: Storage, w: Window): int {
    Add32(w.revealLedger, s.config.maxRevealLedgers)
  }

  datatype Opening = Opening(nonce: nat, reading: Sample, salt: Bytes)

  function DigestOf(env: Env, p: Opening): Digest {
    env.sha(CommitmentPreimage(p.nonce, p.reading, p.salt))
  }

  function AcceptReveal(s: Storage, env: Env, oracle: Address, project: ProjectId, p: Opening, now: Now): Txn<Storage> {
    if s.paused then Reverted
    else
      :- Require(oracle in s.roster.active);
      :- Require(HasStake(s, oracle));
      :- Require(WindowActive(s, project));
      var w := s.windows[project];
      :- Require(w.phase.Reveal?);
      :- Require(RevealOpens(s, w) <= now.ledger);
      :- Require(now.ledger <= RevealCloses(s, w));
      :- Require((project, oracle) in s.marks.commitments);
      var c := s.marks.commitments[(project, oracle)];
      :- Require(c.nonce == p.nonce);
      :- Require((project, oracle) !in s.marks.revealed);
      :- Require(DigestOf(env, p) == c.digest);
      :- Require(p.reading.Plausible());
      var sub := Submission(oracle, p.nonce, now.timestamp, p.reading);
      Committed(s.(submissions := s.submissions + 1,
                   windows := s.windows[project := w.(subs := w.subs + [sub])],
                   marks := s.marks.(revealed := s.marks.revealed + {(project, oracle)})))
  }

  /** Nothing happens before enough submissions are in. */
  function FinalizeReveals(s: Storage, project: ProjectId, now: Now, token: TokenView): Txn<(Storage, Option<Result>)>
    requires project in s.windows
  {
    var w := s.windows[project];
    if w.finalized || |w.subs| < s.config.minOracles then Committed((s, None))
    else
      var done :- Conclude(s, project, w.(phase := Finalized), now, token);
      Committed((done.0.(marks := ClearReveals(s.marks, KeysOf(project, s.roster.list))), Some(done.1)))
  }

  function RevealReading(s: Storage, env: Env, oracle: Address, project: ProjectId, p: Opening,
                         now: Now, token: TokenView): Txn<(Storage, Option<Result>)>
  {
    var t :- AcceptReveal(s, env, oracle, project, p, now);
    FinalizeReveals(t, project, now, token)
  }

  // ---- Penalties ----

  /** The parts of the system a penalty touches. */
  datatype Purse = Purse(commitments: map<Key, Commitment>, book: StakeBook, bank: Bank)

  predicate Delinquent(p: Purse, revealed: set<Key>, project: ProjectId, oracle: Address) {
    (project, oracle) in p.commitments && (project, oracle) !in revealed
  }

  function PenalizeOne(p: Purse, cfg: OracleConfig, self: Address, revealed: set<Key>, project: ProjectId,
                       oracle: Address, now: Now, permit: bool): Txn<Purse>
  {
    if !Delinquent(p, revealed, project, oracle) then Committed(p)
    else
      var stake := StakeOf(p.book, oracle);
      var cut :- ComputeSlashAmount(stake.amount, cfg);
      var bank :- PayIfPositive(p.bank, cfg.stakingToken, self, cfg.treasury, cut, permit);
      var missed := p.book.missed[oracle := Counter(p.book.missed, oracle) + 1];
      var book := if cut > 0
                  then StakeBook(p.book.stakes[oracle := stake.(amount := stake.amount - cut)],
                                 p.book.slashes[oracle := SlashRecord(3, now.timestamp)], missed)
                  else p.book.(missed := missed);
      Committed(Purse(p.commitments - {(project, oracle)}, book, bank))
  }

  function PenalizeEach(p: Purse, cfg: OracleConfig, self: Address, revealed: set<Key>, project: ProjectId,
                        oracles: seq<Address>, now: Now, permit: bool): Txn<Purse>
    decreases |oracles|
  {
    if oracles == [] then Committed(p)
    else
      var q :- PenalizeOne(p, cfg, self, revealed, project, oracles[0], now, permit);
      PenalizeEach(q, cfg, self, revealed, project, oracles[1..], now, permit)
  }

  function Penalize(s: System, env: Env, project: ProjectId, now: Now, permit: bool): Txn<System> {
    var p :- PenalizeEach(Purse(s.store.marks.commitments, s.store.book, s.bank), s.store.config, env.self,
                          s.store.marks.revealed, project, s.store.roster.list, now, permit);
    Committed(System(s.store.(marks := s.store.marks.(commitments := p.commitments), book := p.book), p.bank))
  }

  function FinalizeWindow(s: System, env: Env, project: ProjectId, now: Now, token: TokenView, permit: bool)
    : Txn<(System, Option<Result>)>
  {
    if s.store.paused then Reverted
    else
      :- Require(WindowActive(s.store, project));
      var w := s.store.windows[project];
      :- Require(w.phase.Reveal?);
      :- Require(RevealCloses(s.store, w) < now.ledger);
      var t :- Penalize(s, env, project, now, permit);
      var done :- FinalizeReveals(t.store, project, now, token);
      Committed((System(done.0, t.bank), done.1))
  }

  // ---- Stakes ----

  function WithStake(s: Storage, oracle: Address, stake: Stake): Storage {
    s.(book := s.book.(stakes := s.book.stakes[oracle := stake]))
  }

  function AddStake(s: System, env: Env, oracle: Address, amount: int, permit: bool): Txn<System> {
    if amount <= 0 then Reverted
    else
      var bank :- Pay(s.bank, s.store.config.stakingToken, oracle, env.self, amount, permit);
      Committed(System(WithStake(s.store, oracle, Stake(Wrap128(StakeOf(s.store.book, oracle).amount + amount), None)), bank))
  }

  function Unstake(s: Storage, oracle: Address, amount: int, now: Now): Txn<Storage> {
    if amount <= 0 then Reverted
    else
      var stake := StakeOf(s.book, oracle).amount;
      :- Require(amount <= stake);
      :- Require(oracle in s.roster.active ==> s.config.minStake <= stake - amount);
      Committed(WithStake(s, oracle, Stake(stake - amount, Some(Add64(now.timestamp, s.config.unstakeCooldown)))))
  }

  /** Pays out the stake that is left, not the amount that was requested. */
  function ClaimUnstake(s: System, env: Env, oracle: Address, now: Now, permit: bool): Txn<System> {
    var stake := StakeOf(s.store.book, oracle);
    :- Require(stake.unstakeAt.Some? && stake.unstakeAt.value != 0);
    :- Require(stake.unstakeAt.value <= now.timestamp);
    var bank :- Pay(s.bank, s.store.config.stakingToken, env.self, oracle, stake.amount, permit);
    Committed(System(WithStake(s.store, oracle, Stake(0, None)), bank))
  }

  function Slash(s: System, env: Env, caller: Address, oracle: Address, amount: int, reason: nat, now: Now, permit: bool): Txn<System> {
    if caller != s.store.admin then Reverted
    else
      :- Require(amount > 0);
      var stake := StakeOf(s.store.book, oracle);
      :- Require(amount <= stake.amount);
      var bank :- Pay(s.bank, s.store.config.stakingToken, env.self, s.store.config.treasury, amount, permit);
      var t := WithStake(s.store, oracle, stake.(amount := stake.amount - amount));
      Committed(System(t.(book := t.book.(slashes := t.book.slashes[oracle := SlashRecord(reason, now.timestamp)])), bank))
  }

  // ---- Runs ----

  datatype Call =
    | CallAddOracle(admin: Address, oracle: Address)
    | CallRemoveOracle(admin: Address, oracle: Address)
    | CallUpdateConfig(admin: Address, config: OracleConfig)
    | CallSetProject(admin: Address, project: ProjectId, pc: ProjectConfig)
    | CallSetPaused(paused: bool)
    | CallSubmit(oracle: Address, project: ProjectId, nonce: nat, reading: Sample, now: Now, token: TokenView)
    | CallOpen(admin: Address, project: ProjectId, now: Now)
    | CallCommit(oracle: Address, project: ProjectId, nonce: nat, digest: Digest)
    | CallBeginReveal(project: ProjectId, now: Now)
    | CallReveal(oracle: Address, project: ProjectId, opening: Opening, now: Now, token: TokenView)
    | CallFinalize(project: ProjectId, now: Now, token: TokenView, permit: bool)
    | CallReset(admin: Address, project: ProjectId, now: Now)
    | CallStake(oracle: Address, amount: int, permit: bool)
    | CallUnstake(oracle: Address, amount: int, now: Now)
    | CallClaim(oracle: Address, now: Now, permit: bool)
    | CallSlash(caller: Address, oracle: Address, amount: int, reason: nat, now: Now, permit: bool)
      /** A transfer between token holders that the contract takes no part in. */
    | CallTransfer(payment: Address, from: Address, to: Address, amount: int)

  /** Calls that move no tokens. */
  function StoreStep(s: Storage, env: Env, c: Call): Txn<Storage> {
    match c
    case CallAddOracle(admin, oracle) => AddOracle(s, admin, oracle)
    case CallRemoveOracle(admin, oracle) => RemoveOracle(s, admin, oracle)
    case CallUpdateConfig(admin, config) => UpdateConfig(s, admin, config)
    case CallSetProject(admin, project, pc) => SetProjectConfig(s, admin, project, pc)
    case CallSetPaused(paused) => Committed(s.(paused := paused))
    case CallSubmit(oracle, project, nonce, reading, now, token) =>
      var r :- SubmitReading(s, oracle, project, nonce, reading, now, token);
      Committed(r.0)
    case CallOpen(admin, project, now) => OpenWindow(s, admin, project, now)
    case CallCommit(oracle, project, nonce, digest) => CommitReading(s, oracle, project, nonce, digest)
    case CallBeginReveal(project, now) => BeginReveal(s, project, now)
    case CallReveal(oracle, project, opening, now, token) =>
      var r :- RevealReading(s, env, oracle, project, opening, now, token);
      Committed(r.0)
    case CallReset(admin, project, now) => ResetWindow(s, admin, project, now)
    case CallUnstake(oracle, amount, now) => Unstake(s, oracle, amount, now)
    case _ => Reverted
  }

  function Step(s: System, env: Env, c: Call): Txn<System> {
    match c
    case CallFinalize(project, now, token, permit) =>
      var r :- FinalizeWindow(s, env, project, now, token, permit);
      Committed(r.0)
    case CallStake(oracle, amount, permit) => AddStake(s, env, oracle, amount, permit)
    case CallClaim(oracle, now, permit) => ClaimUnstake(s, env, oracle, now, permit)
    case CallSlash(caller, oracle, amount, reason, now, permit) => Slash(s, env, caller, oracle, amount, reason, now, permit)
    case CallTransfer(payment, from, to, amount) =>
      var bank :- PayIfPositive(s.bank, payment, from, to, amount, true);
      Committed(s.(bank := bank))
    case _ =>
      var t :- StoreStep(s.store, env, c);
      Committed(s.(store := t))
  }

  function Next(s: System, env: Env, c: Call): System {
    var r := Step(s, env, c);
    if r.Committed? then r.value else s
  }

  function Run(s: System, env: Env, calls: seq<Call>): System {
    if calls == [] then s else Next(Run(s, env, calls[..|calls| - 1]), env, calls[|calls| - 1])
  }

  function Deployed(admin: Address, stakingToken: Address, treasury: Address, bank: Bank): System {
    System(Init(admin, stakingToken, treasury), bank)
  }

  lemma RunPush(s: System, env: Env, calls: seq<Call>, c: Call)
    ensures Run(s, env, calls + [c]) == Next(Run(s, env, calls), env, c)
  {
    assert (calls + [c])[..|calls|] == calls;
  }
}
