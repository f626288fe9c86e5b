/** The steps of the orchestrator (orchestrator.py, lifecycle.py, tasks.py) as functions
    on the tables. The methods of `Service.Orchestrator` are proved against them.

    What the code reads from outside is an argument: the configuration, the uuid drawn,
    the host's erasure strategy, the providers that raise and the emits that fail. A
    `mutate_and_emit` block is all or nothing. */
module Protocol {
  import opened Common
  import opened Inventory
  import opened Subprocessors
  import opened Ledger

  const GRACE_PERIOD := 30 * 86400
  const LOCAL_RECEIPT := "local:"

  /** What `data_owner_report()` and `gdpr_settings` answer during one call. */
  datatype Config = Config(report: RegistryReport, subjectTypes: seq<string>, slaDays: nat, receiptsHatch: bool,
                           revocationHatch: bool, processors: seq<ProcessorEntry>, providers: seq<string>)

  // ----- opening an erasure -----

  datatype OpenArgs = OpenArgs(subjectType: string, subjectKey: string, workspaceId: Option<string>,
                               requestedBy: Option<UserId>, origin: Origin, correlation: Option<string>,
                               closure: Option<nat>, graceEndsAt: Option<int>, source: Option<nat>,
                               restoredFrom: Option<int>, note: string, idempotencyKey: string)

  datatype OpenResult = Opened(pk: nat) | Existing(pk: nat) | UnknownSubjectType | IntegrityError | EmitFailed

  /** One receipt slot per owner. */
  function Slots(owners: seq<DataOwner>, now: int): map<string, Part> {
    if owners == [] then map[]
    else
      var n := |owners| - 1;
      Slots(owners[..n], now)[owners[n].name := Part(Pending, owners[n].kind, "", None, map[], now + owners[n].timeout)]
  }

  function NewHead(s: State, cfg: Config, a: OpenArgs, uuid: string): Head {
    Head(a.subjectType, a.subjectKey, a.workspaceId, a.requestedBy, a.origin, s.now, a.graceEndsAt,
         s.now + cfg.slaDays * DAY, if a.correlation.Some? then a.correlation.value else uuid,
         cfg.report.version, a.closure, a.source, a.restoredFrom, a.note, a.idempotencyKey)
  }

  function NewRequest(s: State, cfg: Config, a: OpenArgs, uuid: string): Request {
    Request(NewHead(s, cfg, a, uuid), Erasing, None, false, Slots(cfg.report.OwnersFor(a.subjectType), s.now), map[])
  }

  function Announcement(pk: nat, h: Head): Event {
    ErasureRequested(pk, h.correlation, h.subjectType, h.subjectKey, h.workspaceId, h.requestedBy, h.origin, h.dueAt)
  }

  /** The three unique constraints of the table. */
  predicate Clashes(there: Head, h: Head) {
    || there.correlation == h.correlation
    || (h.idempotencyKey != "" && there.idempotencyKey == h.idempotencyKey)
    || (h.source.Some? && there.origin == h.origin && there.source == h.source)
  }

  predicate ViolatesUnique(requests: seq<Request>, h: Head) {
    exists r :: r in requests && Clashes(r.head, h)
  }

  /** The insert, its slots and its announcement: one outbox unit. */
  function InsertUnit(s: State, cfg: Config, a: OpenArgs, uuid: string, emitOk: bool): (State, OpenResult) {
    var r := NewRequest(s, cfg, a, uuid);
    if ViolatesUnique(s.requests, r.head) then (s, IntegrityError)
    else if !emitOk then (s, EmitFailed)
    else (s.(requests := s.requests + [r], log := s.log + [Announcement(|s.requests|, r.head)]), Opened(|s.requests|))
  }

  /** What a call answers after its insert was rejected. */
  function Fallback(s: State, key: string): OpenResult {
    if key != "" && FindByKey(s.requests, key).Some? then Existing(FindByKey(s.requests, key).value)
    else IntegrityError
  }

  function RequestErasure(s: State, cfg: Config, a: OpenArgs, uuid: string, emitOk: bool): (State, OpenResult) {
    if a.subjectType !in cfg.subjectTypes then (s, UnknownSubjectType)
    else if a.idempotencyKey != "" && FindByKey(s.requests, a.idempotencyKey).Some? then
      (s, Existing(FindByKey(s.requests, a.idempotencyKey).value))
    else
      var (t, result) := InsertUnit(s, cfg, a, uuid, emitOk);
      if result.IntegrityError? then (t, Fallback(t, a.idempotencyKey)) else (t, result)
  }

  // ----- certification -----

  datatype Blocker = RegistryProblem(problem: Problem) | NobodyClaims(subject: string) | WithoutReceipt(owners: set<string>)

  function Blockers(cfg: Config, r: Request): seq<Blocker> {
    var problems := cfg.report.Problems();
    seq(|problems|, i requires 0 <= i < |problems| => RegistryProblem(problems[i]))
    + (if cfg.report.OwnersFor(r.head.subjectType) == [] then [NobodyClaims(r.head.subjectType)] else [])
    + (if r.Unreceipted() != {} then [WithoutReceipt(r.Unreceipted())] else [])
  }

  /** `_still_in_flight` */
  predicate StillInFlight(r: Request, blockers: seq<Blocker>, report: RegistryReport, now: int) {
    && report.Problems() == []
    && r.Unreceipted() != {}
    && |blockers| == 1 && blockers[0].WithoutReceipt?
    && forall o :: o in r.parts && !r.parts[o].state.Done? ==> now < r.parts[o].deadline
  }

  /** An account erasure run for a closure waits for that closure. */
  predicate GateOpen(s: State, r: Request) {
    r.head.closure.Some? ==> r.head.closure.value < |s.closures| && s.closures[r.head.closure.value].ReadyToCertify()
  }

  function Certified(r: Request, cfg: Config, now: int, waived: bool): Request {
    r.(state := Deleted, completedAt := Some(now), waived := waived,
       obligations := Recorded(r.obligations, DeclaredPairs(cfg.processors, {}), now, now))
  }

  function Finalize(s: State, cfg: Config, pk: nat, waived: bool): State
    requires pk < |s.requests|
  {
    var r := s.requests[pk];
    s.(requests := s.requests[pk := Certified(r, cfg, s.now, waived)],
       closures := if r.head.closure.Some? && r.head.closure.value < |s.closures|
                   then CloseOff(s.closures, r.head.closure.value, s.now, waived) else s.closures)
  }

  function CloseOff(closures: seq<Closure>, c: nat, now: int, waived: bool): seq<Closure>
    requires c < |closures|
  {
    closures[c := closures[c].(status := ClosureDeleted, deletedAt := Some(now), waived := waived)]
  }

  function MaybeFinalize(s: State, cfg: Config, pk: nat): (t: State)
    requires pk < |s.requests|
    ensures |t.requests| == |s.requests| && |t.closures| == |s.closures|
  {
    var r := s.requests[pk];
    if !r.Open() || !GateOpen(s, r) then s
    else
      var blocked := Blockers(cfg, r) != [];
      if blocked && !cfg.receiptsHatch then s else Finalize(s, cfg, pk, blocked)
  }

  // ----- receipts -----

  function WithParts(s: State, pk: nat, parts: map<string, Part>): State
    requires pk < |s.requests|
  {
    s.(requests := s.requests[pk := s.requests[pk].(parts := parts)])
  }

  function ReceiptedPart(p: Part, receiptId: string, counts: map<string, int>, now: int): Part {
    p.(state := Done, receiptId := receiptId, receiptAt := Some(now), counts := counts)
  }

  function ReceiptText(receiptId: string, owner: string, correlation: string): string {
    if receiptId != "" then receiptId else owner + ":" + correlation
  }

  /** The slot a confirmation fills: the named owner's, unless it is DONE or unknown. */
  predicate Awaits(r: Request, owner: string) {
    owner in r.parts && !r.parts[owner].state.Done?
  }

  function RecordReceipt(s: State, pk: nat, owner: string, receiptId: string, counts: map<string, int>): State
    requires pk < |s.requests| && Awaits(s.requests[pk], owner)
  {
    var r := s.requests[pk];
    WithParts(s, pk, r.parts[owner := ReceiptedPart(r.parts[owner], ReceiptText(receiptId, owner, r.head.correlation), counts, s.now)])
  }

  function MarkSectionErased(s: State, cfg: Config, correlation: string, owner: string, receiptId: string,
                             counts: map<string, int>): (t: State)
    ensures |t.requests| == |s.requests| && |t.closures| == |s.closures|
  {
    var found := FindByCorrelation(s.requests, correlation);
    if found.None? || !Awaits(s.requests[found.value], owner) then s
    else MaybeFinalize(RecordReceipt(s, found.value, owner, receiptId, counts), cfg, found.value)
  }

  /** Local owners that ran: declared for the subject, reachable, and not among the failures. */
  predicate RanLocally(report: RegistryReport, subject: string, failed: seq<string>, owner: string) {
    && owner !in failed && owner !in report.missing
    && exists o :: o in report.owners && o.name == owner && o.kind.Local? && o.Claims(subject)
  }

  function LocalReceipts(r: Request, report: RegistryReport, failed: seq<string>, now: int): map<string, Part> {
    map o | o in r.parts ::
      if RanLocally(report, r.head.subjectType, failed, o) && !r.parts[o].state.Done?
      then ReceiptedPart(r.parts[o], LOCAL_RECEIPT, r.parts[o].counts, now)
      else r.parts[o]
  }

  // ----- the deadline sweep -----

  predicate IsOverdue(p: Part, now: int) {
    p.state.Pending? && p.deadline <= now
  }

  function Silent(r: Request, now: int): set<string> {
    set o | o in r.parts && IsOverdue(r.parts[o], now)
  }

  function FlipRequest(r: Request, now: int): Request {
    r.(parts := map o | o in r.parts :: if IsOverdue(r.parts[o], now) then r.parts[o].(state := TimedOut) else r.parts[o])
  }

  function FlipAll(requests: seq<Request>, now: int): (r: seq<Request>)
    ensures |r| == |requests| && forall i :: 0 <= i < |r| ==> r[i] == FlipRequest(requests[i], now)
  {
    seq(|requests|, i requires 0 <= i < |requests| => FlipRequest(requests[i], now))
  }

  function FlipCount(requests: seq<Request>, now: int): nat {
    if requests == [] then 0
    else FlipCount(requests[..|requests| - 1], now) + |Silent(requests[|requests| - 1], now)|
  }

  /** Requests that lost a slot and were still open, newest first. */
  function LosingRequests(requests: seq<Request>, now: int): (todo: seq<nat>)
    ensures forall pk: nat :: pk in todo <==>
              pk < |requests| && Silent(requests[pk], now) != {} && requests[pk].Open()
    ensures Distinct(todo) && forall i :: 0 <= i < |todo| ==> todo[i] < |requests|
  {
    if requests == [] then []
    else
      var n := |requests| - 1;
      var older := LosingRequests(requests[..n], now);
      assert forall pk: nat :: pk < n ==> requests[..n][pk] == requests[pk];
      if Silent(requests[n], now) != {} && requests[n].Open() then [n] + older else older
  }

  function TimeoutEvent(pk: nat, before: Request, now: int): Event {
    ErasureTimeout(pk, before.head.correlation, before.head.subjectType, before.head.subjectKey, Silent(before, now), before.head.dueAt)
  }

  /** One outbox unit per request: the TIMEOUT flip and its event. */
  function TimeoutUnits(s: State, before: seq<Request>, todo: seq<nat>): (t: State)
    requires |before| == |s.requests| && forall i :: 0 <= i < |todo| ==> todo[i] < |s.requests|
    ensures |t.requests| == |s.requests| && t.closures == s.closures && t.now == s.now
  {
    if todo == [] then s
    else
      var n := |todo| - 1;
      var t := TimeoutUnits(s, before, todo[..n]);
      t.(requests := t.requests[todo[n] := t.requests[todo[n]].(state := Timeout)],
         log := t.log + [TimeoutEvent(todo[n], before[todo[n]], s.now)])
  }

  function Prefix<T>(xs: seq<T>, n: nat): (r: seq<T>)
    ensures r <= xs && |r| == if n <= |xs| then n else |xs|
  {
    if n <= |xs| then xs[..n] else xs
  }

  /** The sweep when `delivered` of its emits succeed before one raises; it runs to
      completion when `delivered` covers every request to be timed out. */
  function SweepDeletionDeadlines(s: State, delivered: nat): (t: State)
    ensures |t.requests| == |s.requests| && t.closures == s.closures && t.now == s.now
  {
    if FlipCount(s.requests, s.now) == 0 then s
    else TimeoutUnits(s.(requests := FlipAll(s.requests, s.now)), s.requests,
                      Prefix(LosingRequests(s.requests, s.now), delivered))
  }

  predicate SweepCompletes(s: State, delivered: nat) {
    |LosingRequests(s.requests, s.now)| <= delivered
  }

  // ----- the account lifecycle -----

  /** `set_active` */
  function SetActive(users: map<UserId, User>, user: UserId, active: bool): map<UserId, User> {
    if user in users then users[user := users[user].(active := active)] else users
  }

  /** How session revocation resolves: no seam at all, a seam that raises, or done. */
  datatype Revocation = NoSeam | Raises | Revokes

  datatype InitiateResult = Initiated(pk: nat) | HeldByLaw | AlreadyPending | RevocationUnavailable | InitiateRaised

  function NewClosure(s: State, cfg: Config, user: UserId, trigger: Trigger): Closure {
    Closure(ClosureHead(user, trigger, s.now, s.now + GRACE_PERIOD), Grace, None, false, cfg.report.version, false, None, None, None)
  }

  /** The row, the deactivation, the revocation and both events: one outbox unit. */
  function ClosureUnit(s: State, cfg: Config, user: UserId, trigger: Trigger, revocation: Revocation, emitOk: bool)
    : (State, InitiateResult)
  {
    if revocation.NoSeam? && !cfg.revocationHatch then (s, RevocationUnavailable)
    else if revocation.Raises? || !emitOk then (s, InitiateRaised)
    else
      var c := NewClosure(s, cfg, user, trigger);
      (s.(closures := s.closures + [c], users := SetActive(s.users, user, false),
          log := s.log + [SessionsRevoked(user), DeletionInitiated(user, trigger, c.head.graceEndsAt)]),
       Initiated(|s.closures|))
  }

  function InitiateClosure(s: State, cfg: Config, user: UserId, trigger: Trigger, revocation: Revocation, emitOk: bool)
    : (State, InitiateResult)
  {
    if IsHeld(s, user) then (s, HeldByLaw)
    else if HasActiveClosure(s, user) then (s, AlreadyPending)
    else ClosureUnit(s, cfg, user, trigger, revocation, emitOk)
  }

  datatype CancelResult = CancelledClosure(pk: nat) | NoActiveClosure | CancelRaised

  function CancelClosure(s: State, user: UserId, emitOk: bool): (State, CancelResult) {
    var found := FindGrace(s.closures, user);
    if found.None? then (s, NoActiveClosure)
    else if !emitOk then (s, CancelRaised)
    else
      var c := s.closures[found.value].(status := Cancelled, cancelledAt := Some(s.now));
      (s.(closures := s.closures[found.value := c], users := SetActive(s.users, user, true),
          log := s.log + [DeletionCancelled(user, c.head.trigger, c.cancelledAt)]),
       CancelledClosure(found.value))
  }

  /** What a strategy leaves of the user row, and whether it raised. */
  datatype StrategyOutcome = StrategyOutcome(after: Option<User>, raised: bool)

  /** No identifying value present before is present after. */
  predicate IdentityGone(before: User, after: Option<User>) {
    after.Some? ==> forall f :: f in before.identity && before.identity[f] != "" ==>
                      !(f in after.value.identity && after.value.identity[f] == before.identity[f])
  }

  /** `erase_identity`: run the strategy, then measure the result. */
  function EraseIdentity(users: map<UserId, User>, user: UserId, strategy: User -> StrategyOutcome): (map<UserId, User>, bool) {
    if user !in users then (users, true)
    else
      var outcome := strategy(users[user]);
      (if outcome.after.Some? then users[user := outcome.after.value] else users - {user},
       !outcome.raised && IdentityGone(users[user], outcome.after))
  }

  /** What the host does during one `execute_deletion`. */
  datatype Host = Host(anonymizeFails: set<string>, deleteFails: set<string>, strategy: User -> StrategyOutcome,
                       openEmitOk: bool, deletedEmitOk: bool)

  /** `_run_deletion_inprocess`: the providers that raised, anonymize failures first. */
  function FailedSections(providers: seq<string>, host: Host): seq<string> {
    DeleteFailures(providers, host, AnonymizeFailures(providers, host))
  }

  function AnonymizeFailures(providers: seq<string>, host: Host): seq<string> {
    if providers == [] then []
    else
      var n := |providers| - 1;
      AnonymizeFailures(providers[..n], host) + (if providers[n] in host.anonymizeFails then [providers[n]] else [])
  }

  function DeleteFailures(providers: seq<string>, host: Host, failed: seq<string>): seq<string> {
    if providers == [] then failed
    else
      var n := |providers| - 1;
      var sofar := DeleteFailures(providers[..n], host, failed);
      if providers[n] in host.deleteFails && providers[n] !in sofar then sofar + [providers[n]] else sofar
  }

  datatype ExecuteResult = ExecuteHeld | OpenRaised | ProvidersFailed(failed: seq<string>) | IdentitySurvives | EmitRaised | Executed

  /** The first write: DELETING, and a correlation id if there is none yet. */
  function MarkDeleting(s: State, cfg: Config, c: nat, uuid: string): State
    requires c < |s.closures|
  {
    var k := s.closures[c];
    s.(closures := s.closures[c := k.(status := Deleting, registryVersion := cfg.report.version,
                                      correlation := if k.correlation.Some? then k.correlation else Some(uuid))])
  }

  function AccountErasure(k: Closure, c: nat): OpenArgs {
    OpenArgs(SUBJECT_ACCOUNT, UserKey(k.head.user), None, Some(k.head.user),
             if k.head.trigger.Inactivity? then ByInactivity else ByUser,
             k.correlation, Some(c), Some(k.head.graceEndsAt), None, None, "", "")
  }

  /** `str(user_id)` */
  function UserKey(user: UserId): string {
    if user < 10 then [Digit(user)] else UserKey(user / 10) + [Digit(user % 10)]
  }

  function Digit(d: nat): char
    requires d < 10
  {
    "0123456789"[d]
  }

  /** Reuse the request of this closure's correlation id, or open it. */
  function EnsureRequest(s: State, cfg: Config, c: nat, host: Host): (r: (State, Option<nat>))
    requires c < |s.closures| && s.closures[c].correlation.Some?
    ensures r.0.closures == s.closures && |s.requests| <= |r.0.requests|
    ensures r.1.Some? ==> r.1.value < |r.0.requests|
  {
    var correlation := s.closures[c].correlation.value;
    var found := FindByCorrelation(s.requests, correlation);
    if found.Some? then (s, found)
    else
      var (t, result) := RequestErasure(s, cfg, AccountErasure(s.closures[c], c), correlation, host.openEmitOk);
      (t, if result.Opened? then Some(result.pk) else None)
  }

  function WithClosure(s: State, c: nat, k: Closure): State
    requires c < |s.closures|
  {
    s.(closures := s.closures[c := k])
  }

  /** The local work, the identity, the announcement and the re-check. */
  function EraseLocally(s: State, cfg: Config, c: nat, pk: nat, host: Host): (r: (State, ExecuteResult))
    requires c < |s.closures| && pk < |s.requests|
    ensures |r.0.requests| == |s.requests| && |r.0.closures| == |s.closures|
  {
    var failed := FailedSections(cfg.providers, host);
    var s1 := WithParts(s, pk, LocalReceipts(s.requests[pk], cfg.report, failed, s.now));
    if failed != [] then (s1, ProvidersFailed(failed)) else EraseUserRow(s1, cfg, c, pk, host)
  }

  function EraseUserRow(s: State, cfg: Config, c: nat, pk: nat, host: Host): (r: (State, ExecuteResult))
    requires c < |s.closures| && pk < |s.requests|
    ensures |r.0.requests| == |s.requests| && |r.0.closures| == |s.closures|
  {
    var k := s.closures[c];
    var (users, erased) := EraseIdentity(s.users, k.head.user, host.strategy);
    var s1 := s.(users := users);
    if !erased then (s1, IdentitySurvives)
    else
      var s2 := WithClosure(s1, c, k.(identityErasedAt := Some(s.now)));
      if !host.deletedEmitOk then (s2, EmitRaised)
      else (MaybeFinalize(AnnounceLocal(s2, c), cfg, pk), Executed)
  }

  function AnnounceLocal(s: State, c: nat): State
    requires c < |s.closures|
  {
    var k := s.closures[c];
    WithClosure(s, c, k.(localErasureDone := true)).(
      log := s.log + [UserDeleted(k.head.user, if k.correlation.Some? then k.correlation.value else "", k.head.trigger)])
  }

  function ExecuteDeletion(s: State, cfg: Config, c: nat, uuid: string, host: Host): (r: (State, ExecuteResult))
    requires c < |s.closures|
    ensures |r.0.closures| == |s.closures| && |s.requests| <= |r.0.requests|
  {
    if IsHeld(s, s.closures[c].head.user) then (s, ExecuteHeld)
    else
      var (s2, pk) := EnsureRequest(MarkDeleting(s, cfg, c, uuid), cfg, c, host);
      if pk.None? then (s2, OpenRaised) else EraseLocally(s2, cfg, c, pk.value, host)
  }

  // ----- the grace sweep (tasks.py) -----

  predicate GraceExpired(s: State, k: Closure) {
    k.status.Grace? && k.head.graceEndsAt <= s.now && !IsHeld(s, k.head.user)
  }

  /** The closures `process_expired_grace_periods` selects among the first `n`. */
  function GraceCandidates(s: State, n: nat): (r: seq<nat>)
    requires n <= |s.closures|
    ensures forall c: nat :: c in r <==> c < n && GraceExpired(s, s.closures[c])
    ensures Distinct(r) && forall i :: 0 <= i < |r| ==> r[i] < n
  {
    if n == 0 then []
    else
      var earlier := GraceCandidates(s, n - 1);
      if GraceExpired(s, s.closures[n - 1]) then earlier + [n - 1] else earlier
  }

  /** `execute_deletion` on each closure in turn, exceptions swallowed. */
  function ExecuteAll(s: State, cfg: Config, todo: seq<nat>, uuids: nat -> string, hosts: nat -> Host): (t: State)
    requires forall i :: 0 <= i < |todo| ==> todo[i] < |s.closures|
    ensures |t.closures| == |s.closures|
  {
    if todo == [] then s
    else
      var n := |todo| - 1;
      var t := ExecuteAll(s, cfg, todo[..n], uuids, hosts);
      ExecuteDeletion(t, cfg, todo[n], uuids(todo[n]), hosts(todo[n])).0
  }

  function ProcessExpiredGracePeriods(s: State, cfg: Config, uuids: nat -> string, hosts: nat -> Host): State {
    ExecuteAll(s, cfg, GraceCandidates(s, |s.closures|), uuids, hosts)
  }

  // ----- the closure token (views.py) -----

  /** The decoded X-Closure-Token header. */
  datatype TokenHeader = NoHeader | Unreadable | Signed(closure: nat, subject: UserId, expires: int)

  datatype TokenDecision = NoToken | TokenInvalid | TokenExpired | OutOfScope | Accepted(closure: nat)

  /** `order_by("-initiated_at", "-pk").first()` over a user's closures. */
  function Newest(closures: seq<Closure>, user: UserId): (r: Option<nat>)
    ensures r.Some? ==> r.value < |closures| && closures[r.value].head.user == user
    ensures r.Some? ==> forall c :: 0 <= c < |closures| && closures[c].head.user == user ==>
              closures[c].head.initiatedAt < closures[r.value].head.initiatedAt
              || (closures[c].head.initiatedAt == closures[r.value].head.initiatedAt && c <= r.value)
    ensures r.None? ==> forall c :: 0 <= c < |closures| ==> closures[c].head.user != user
  {
    if closures == [] then None
    else
      var n := |closures| - 1;
      var best := Newest(closures[..n], user);
      if closures[n].head.user == user
         && (best.None? || closures[best.value].head.initiatedAt <= closures[n].head.initiatedAt)
      then Some(n) else best
  }

  /** `_closure_from_token` */
  function ClosureFromToken(s: State, header: TokenHeader): TokenDecision {
    match header
    case NoHeader => NoToken
    case Unreadable => TokenInvalid
    case Signed(c, subject, expires) =>
      if expires < s.now then TokenExpired
      else if c >= |s.closures| || s.closures[c].head.user != subject then OutOfScope
      else if Newest(s.closures, subject) != Some(c) then OutOfScope
      else Accepted(c)
  }

  datatype CancelResponse = CancelledOk(closure: nat) | Unauthorized | Forbidden | NotFound | ServerError

  /** `AccountCancelCloseView.post` for a caller that presents a token. */
  function CancelWithToken(s: State, header: TokenHeader, emitOk: bool): (State, CancelResponse)
    requires !header.NoHeader?
  {
    match ClosureFromToken(s, header)
    case Accepted(c) =>
      var (t, result) := CancelClosure(s, s.closures[c].head.user, emitOk);
      (t, match result
          case CancelledClosure(d) => CancelledOk(d)
          case NoActiveClosure => NotFound
          case CancelRaised => ServerError)
    case OutOfScope => (s, Forbidden)
    case _ => (s, Unauthorized)
  }

  // ----- re-queue after a restore (management/commands/gdpr_requeue_after_restore.py) -----

  const SLACK := 86400

  predicate IsCloneOf(r: Request, pk: nat) {
    r.head.origin.RestoreRequeue? && r.head.source == Some(pk)
  }

  predicate HasClone(requests: seq<Request>, pk: nat) {
    exists r :: r in requests && IsCloneOf(r, pk)
  }

  /** Completed at or after the cutoff, so a restore may have undone it. */
  predicate Undone(r: Request, cutoff: int) {
    r.state.Deleted? && r.completedAt.Some? && cutoff <= r.completedAt.value
  }

  /** The command's candidates among the first `n` requests, in key order. */
  function RequeueCandidates(requests: seq<Request>, cutoff: int, n: nat): (r: seq<nat>)
    requires n <= |requests|
    ensures forall pk: nat :: pk in r <==> pk < n && Undone(requests[pk], cutoff) && !HasClone(requests, pk)
    ensures Distinct(r) && forall i :: 0 <= i < |r| ==> r[i] < n
  {
    if n == 0 then []
    else
      var earlier := RequeueCandidates(requests, cutoff, n - 1);
      if Undone(requests[n - 1], cutoff) && !HasClone(requests, n - 1) then earlier + [n - 1] else earlier
  }

  function CloneArgs(source: Request, pk: nat, restoredFrom: int): OpenArgs {
    OpenArgs(source.head.subjectType, source.head.subjectKey, source.head.workspaceId, source.head.requestedBy,
             RestoreRequeue, None, None, None, Some(pk), Some(restoredFrom), "re-queued after restore", "")
  }

  /** How far the loop got; `aborted` when an emit raised out of it. */
  datatype Requeue = Requeue(s: State, requeued: nat, skipped: nat, aborted: bool)

  function RequeueOne(q: Requeue, cfg: Config, pk: nat, restoredFrom: int, uuid: string, emitOk: bool): Requeue
    requires pk < |q.s.requests|
  {
    if q.aborted then q
    else
      var (t, result) := RequestErasure(q.s, cfg, CloneArgs(q.s.requests[pk], pk, restoredFrom), uuid, emitOk);
      match result
      case EmitFailed => q.(s := t, aborted := true)
      case IntegrityError => q.(s := t, skipped := q.skipped + 1)
      case UnknownSubjectType => q.(s := t, skipped := q.skipped + 1)
      case _ => q.(s := t, requeued := q.requeued + 1)
  }

  function RequeueAll(s: State, cfg: Config, todo: seq<nat>, restoredFrom: int, uuids: nat -> string, emits: nat -> bool)
    : (q: Requeue)
    requires forall i :: 0 <= i < |todo| ==> todo[i] < |s.requests|
    ensures |s.requests| <= |q.s.requests|
  {
    if todo == [] then Requeue(s, 0, 0, false)
    else
      var n := |todo| - 1;
      RequeueOne(RequeueAll(s, cfg, todo[..n], restoredFrom, uuids, emits), cfg, todo[n], restoredFrom, uuids(todo[n]), emits(todo[n]))
  }

  function RequeueAfterRestore(s: State, cfg: Config, restoredFrom: int, dryRun: bool, uuids: nat -> string, emits: nat -> bool): Requeue {
    var todo := RequeueCandidates(s.requests, restoredFrom - SLACK, |s.requests|);
    if dryRun then Requeue(s, |todo|, 0, false) else RequeueAll(s, cfg, todo, restoredFrom, uuids, emits)
  }
}
