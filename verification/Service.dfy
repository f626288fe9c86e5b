/** `GDPROrchestrator`, the scheduled tasks and the restore command as they run: methods
    that change the tables step by step, each proved equal to its step of `Protocol`. */
module Service {
  import opened Common
  import opened Inventory
  import opened Subprocessors
  import opened Ledger
  import opened Protocol
  import opened Runs
  import opened Invariants
  import opened Frames
  import opened Accounts
  import opened Restores

  function WinnerOrError(found: Option<nat>): OpenResult {
    if found.Some? then Existing(found.value) else IntegrityError
  }

  // ----- loops over values -----

  /** The receipt slots `request_erasure` bulk-creates. */
  method OpenSlots(owners: seq<DataOwner>, now: int) returns (parts: map<string, Part>)
    ensures parts == Slots(owners, now)
  {
    parts := map[];
    for i := 0 to |owners|
      invariant parts == Slots(owners[..i], now)
    {
      assert owners[..i + 1][..i] == owners[..i];
      parts := parts[owners[i].name := Part(Pending, owners[i].kind, "", None, map[], now + owners[i].timeout)];
    }
    assert owners[..|owners|] == owners;
  }

  /** `_run_deletion_inprocess`: anonymize everywhere, then delete everywhere. */
  method RunDeletionInprocess(providers: seq<string>, host: Host) returns (failed: seq<string>)
    ensures failed == FailedSections(providers, host)
  {
    failed := [];
    for i := 0 to |providers|
      invariant failed == AnonymizeFailures(providers[..i], host)
    {
      assert providers[..i + 1][..i] == providers[..i];
      if providers[i] in host.anonymizeFails {
        failed := failed + [providers[i]];
      }
    }
    assert providers[..|providers|] == providers;
    ghost var anonymize := failed;
    for i := 0 to |providers|
      invariant failed == DeleteFailures(providers[..i], host, anonymize)
    {
      assert providers[..i + 1][..i] == providers[..i];
      if providers[i] in host.deleteFails && providers[i] !in failed {
        failed := failed + [providers[i]];
      }
    }
  }

  ghost predicate RanAmong(owners: seq<DataOwner>, report: RegistryReport, failed: seq<string>, name: string) {
    && name !in failed && name !in report.missing
    && exists o :: o in owners && o.name == name && o.kind.Local?
  }

  /** `_record_local_receipts`: one receipt per local owner whose provider ran. */
  method RecordLocalReceipts(r: Request, report: RegistryReport, failed: seq<string>, now: int) returns (parts: map<string, Part>)
    ensures parts == LocalReceipts(r, report, failed, now)
  {
    var owners := report.OwnersFor(r.head.subjectType);
    parts := r.parts;
    for i := 0 to |owners|
      invariant parts.Keys == r.parts.Keys
      invariant forall o :: o in parts ==>
                  parts[o] == if RanAmong(owners[..i], report, failed, o) && !r.parts[o].state.Done?
                              then ReceiptedPart(r.parts[o], LOCAL_RECEIPT, r.parts[o].counts, now) else r.parts[o]
    {
      var owner := owners[i];
      assert forall o :: o in owners[..i + 1] <==> o in owners[..i] || o == owner;
      if owner.kind.Local? && owner.name !in failed && owner.name !in report.missing {
        assert RanAmong(owners[..i + 1], report, failed, owner.name);
        if owner.name in parts && !parts[owner.name].state.Done? {
          parts := parts[owner.name := ReceiptedPart(parts[owner.name], LOCAL_RECEIPT, parts[owner.name].counts, now)];
        }
      }
    }
    assert owners[..|owners|] == owners;
    assert forall o :: RanAmong(owners, report, failed, o) <==> RanLocally(report, r.head.subjectType, failed, o);
  }

  /** The blockers `_maybe_finalize` gathers, one after another. */
  method GatherBlockers(cfg: Config, r: Request) returns (blockers: seq<Blocker>)
    ensures blockers == Blockers(cfg, r)
  {
    var problems := cfg.report.Problems();
    blockers := [];
    for i := 0 to |problems|
      invariant |blockers| == i && forall j :: 0 <= j < i ==> blockers[j] == RegistryProblem(problems[j])
    {
      blockers := blockers + [RegistryProblem(problems[i])];
    }
    assert blockers == seq(|problems|, i requires 0 <= i < |problems| => RegistryProblem(problems[i]));
    if cfg.report.OwnersFor(r.head.subjectType) == [] {
      blockers := blockers + [NobodyClaims(r.head.subjectType)];
    }
    if r.Unreceipted() != {} {
      blockers := blockers + [WithoutReceipt(r.Unreceipted())];
    }
  }

  /** The bulk update of the sweep: who was silent in each request, and how many slots. */
  method FlipOverdue(requests: seq<Request>, now: int)
    returns (flipped: seq<Request>, affected: seq<set<string>>, count: nat)
    ensures flipped == FlipAll(requests, now) && count == FlipCount(requests, now)
    ensures |affected| == |requests| && forall i :: 0 <= i < |requests| ==> affected[i] == Silent(requests[i], now)
  {
    flipped, affected, count := [], [], 0;
    for i := 0 to |requests|
      invariant |flipped| == i && forall j :: 0 <= j < i ==> flipped[j] == FlipRequest(requests[j], now)
      invariant |affected| == i && forall j :: 0 <= j < i ==> affected[j] == Silent(requests[j], now)
      invariant count == FlipCount(requests[..i], now)
    {
      assert requests[..i + 1][..i] == requests[..i];
      flipped := flipped + [FlipRequest(requests[i], now)];
      affected := affected + [Silent(requests[i], now)];
      count := count + |affected[i]|;
    }
    assert requests[..|requests|] == requests;
  }

  /** After an aborting emit the remaining sources are left alone. */
  lemma AbortIsFinal(s: State, cfg: Config, todo: seq<nat>, n: nat, restoredFrom: int, uuids: nat -> string, emits: nat -> bool)
    requires (forall i :: 0 <= i < |todo| ==> todo[i] < |s.requests|) && n <= |todo|
    requires RequeueAll(s, cfg, todo[..n], restoredFrom, uuids, emits).aborted
    ensures RequeueAll(s, cfg, todo, restoredFrom, uuids, emits) == RequeueAll(s, cfg, todo[..n], restoredFrom, uuids, emits)
  {
    var turns := seq(|todo| + 1, j requires 0 <= j <= |todo| => RequeueAll(s, cfg, todo[..j], restoredFrom, uuids, emits));
    forall j: nat | j < |todo| && turns[j].aborted ensures turns[j + 1] == turns[j] {
      TurnAfterAbort(s, cfg, todo, j, restoredFrom, uuids, emits);
    }
    Settles(turns, n, |todo|);
    assert todo[..|todo|] == todo;
  }

  lemma {:induction false} Settles(turns: seq<Requeue>, n: nat, k: nat)
    requires n <= k < |turns| && turns[n].aborted
    requires forall j :: 0 <= j < |turns| - 1 && turns[j].aborted ==> turns[j + 1] == turns[j]
    ensures turns[k] == turns[n]
    decreases k
  {
    if n < k {
      Settles(turns, n, k - 1);
    }
  }

  lemma TurnAfterAbort(s: State, cfg: Config, todo: seq<nat>, k: nat, restoredFrom: int, uuids: nat -> string, emits: nat -> bool)
    requires k < |todo| && forall i :: 0 <= i < |todo| ==> todo[i] < |s.requests|
    requires RequeueAll(s, cfg, todo[..k], restoredFrom, uuids, emits).aborted
    ensures RequeueAll(s, cfg, todo[..k + 1], restoredFrom, uuids, emits) == RequeueAll(s, cfg, todo[..k], restoredFrom, uuids, emits)
  {
    NextTurn(s, cfg, todo, k, restoredFrom, uuids, emits);
  }

  /** The turn for `todo[k]`, as an equation. */
  lemma NextTurn(s: State, cfg: Config, todo: seq<nat>, k: nat, restoredFrom: int, uuids: nat -> string, emits: nat -> bool)
    requires k < |todo| && forall i :: 0 <= i < |todo| ==> todo[i] < |s.requests|
    ensures RequeueAll(s, cfg, todo[..k + 1], restoredFrom, uuids, emits) ==
              RequeueOne(RequeueAll(s, cfg, todo[..k], restoredFrom, uuids, emits), cfg, todo[k], restoredFrom, uuids(todo[k]), emits(todo[k]))
  {
    var upTo := todo[..k + 1];
    assert upTo != [] && upTo[..|upTo| - 1] == todo[..k] && upTo[|upTo| - 1] == todo[k];
    LastTurn(s, cfg, upTo, restoredFrom, uuids, emits);
  }

  // ----- what every entry point keeps -----

  ghost predicate MayStep(s: State, step: Step) {
    Inv(s) && Enabled(s, step)
  }

  /** `t` continues `s`: the invariant holds, nothing was taken back, and a run leads there,
      so every theorem about runs and reachable states carries over. */
  ghost predicate StillSound(s: State, t: State) {
    Inv(t) && Evolves(s, t) && exists steps :: ValidRun(s, steps) && Run(s, steps) == t
  }

  lemma RunIsSound(s: State, steps: seq<Step>)
    requires Inv(s) && ValidRun(s, steps)
    ensures StillSound(s, Run(s, steps))
  {
    RunKeeps(s, steps);
  }

  lemma StepIsSound(s: State, step: Step)
    ensures MayStep(s, step) ==> StillSound(s, Apply(s, step))
  {
    if MayStep(s, step) {
      RunThen(s, [], step);
      RunIsSound(s, [] + [step]);
    }
  }

  lemma GraceSweepIsSound(s: State, cfg: Config, uuids: nat -> string, hosts: nat -> Host)
    ensures Inv(s) && FreshDraws(s, uuids) ==> StillSound(s, ProcessExpiredGracePeriods(s, cfg, uuids, hosts))
  {
    if Inv(s) && FreshDraws(s, uuids) {
      var steps := GraceSweepIsARun(s, cfg, uuids, hosts);
      RunIsSound(s, steps);
    }
  }

  lemma RequeueIsSound(s: State, cfg: Config, restoredFrom: int, dryRun: bool, uuids: nat -> string, emits: nat -> bool)
    ensures Inv(s) && FreshDraws(s, uuids) ==> StillSound(s, RequeueAfterRestore(s, cfg, restoredFrom, dryRun, uuids, emits).s)
  {
    if Inv(s) && FreshDraws(s, uuids) {
      var steps := RequeueIsARun(s, cfg, restoredFrom, dryRun, uuids, emits);
      RunIsSound(s, steps);
    }
  }

  // ----- the orchestrator -----

  class Orchestrator {
    var now: int
    var users: map<UserId, User>
    var holds: seq<Hold>
    var closures: seq<Closure>
    var requests: seq<Request>
    var log: seq<Event>

    ghost function Tables(): State
      reads this
    {
      State(now, users, holds, closures, requests, log)
    }

    constructor ()
      ensures Tables() == EMPTY && Inv(Tables())
    {
      now, users, holds, closures, requests, log := 0, map[], [], [], [], [];
    }

    method OpenErasure(cfg: Config, a: OpenArgs, uuid: string, emitOk: bool) returns (result: OpenResult)
      modifies this
      ensures (Tables(), result) == RequestErasure(old(Tables()), cfg, a, uuid, emitOk)
    {
      if a.subjectType !in cfg.subjectTypes {
        return UnknownSubjectType;
      }
      if a.idempotencyKey != "" {
        var existing := FindByKey(requests, a.idempotencyKey);
        if existing.Some? {
          return Existing(existing.value);
        }
      }
      var parts := OpenSlots(cfg.report.OwnersFor(a.subjectType), now);
      var head := Head(a.subjectType, a.subjectKey, a.workspaceId, a.requestedBy, a.origin, now, a.graceEndsAt,
                       now + cfg.slaDays * DAY, if a.correlation.Some? then a.correlation.value else uuid,
                       cfg.report.version, a.closure, a.source, a.restoredFrom, a.note, a.idempotencyKey);
      if ViolatesUnique(requests, head) {
        return if a.idempotencyKey != "" then WinnerOrError(FindByKey(requests, a.idempotencyKey)) else IntegrityError;
      }
      if !emitOk {
        return EmitFailed;
      }
      var pk := |requests|;
      requests := requests + [Request(head, Erasing, None, false, parts, map[])];
      log := log + [Announcement(pk, head)];
      return Opened(pk);
    }

    method FinalizeIfCertain(cfg: Config, pk: nat)
      requires pk < |requests|
      modifies this
      ensures Tables() == MaybeFinalize(old(Tables()), cfg, pk)
    {
      var r := requests[pk];
      if !r.Open() {
        return;
      }
      var c := r.head.closure;
      if c.Some? {
        if c.value >= |closures| || !closures[c.value].status.Deleting? || !closures[c.value].localErasureDone
           || closures[c.value].identityErasedAt.None? {
          return;
        }
      }
      var blockers := GatherBlockers(cfg, r);
      if blockers != [] && !cfg.receiptsHatch {
        return;
      }
      var waived := blockers != [];
      var certified := r.(state := Deleted, completedAt := Some(now), waived := waived);
      var obligations, _ := RecordObligations(r.obligations, cfg.processors, {}, certified.completedAt, now);
      requests := requests[pk := certified.(obligations := obligations)];
      if c.Some? {
        closures := closures[c.value := closures[c.value].(status := ClosureDeleted, deletedAt := Some(now), waived := waived)];
      }
    }

    method SectionErased(cfg: Config, correlation: string, service: string, receiptId: string, counts: map<string, int>)
      modifies this
      ensures Tables() == MarkSectionErased(old(Tables()), cfg, correlation, service, receiptId, counts)
    {
      var found := FindByCorrelation(requests, correlation);
      if found.None? {
        return;
      }
      var r := requests[found.value];
      if service !in r.parts || r.parts[service].state.Done? {
        return;
      }
      var receipt := if receiptId != "" then receiptId else service + ":" + correlation;
      var part := r.parts[service].(state := Done, receiptId := receipt, receiptAt := Some(now), counts := counts);
      requests := requests[found.value := r.(parts := r.parts[service := part])];
      FinalizeIfCertain(cfg, found.value);
    }

    /** `delivered` emits go out before one raises; the count is returned only by a sweep
        that runs to its end. */
    method SweepDeadlines(delivered: nat) returns (count: nat, raised: bool)
      modifies this
      ensures Tables() == SweepDeletionDeadlines(old(Tables()), delivered)
      ensures count == FlipCount(old(requests), now)
      ensures raised <==> !SweepCompletes(old(Tables()), delivered)
    {
      var before := requests;
      var flipped, affected, n := FlipOverdue(requests, now);
      count, raised := n, false;
      if count == 0 {
        NobodyLost(requests, now);
        return;
      }
      requests := flipped;
      raised := TimeOutLosers(before, affected, delivered);
    }

    /** The TIMEOUT flip and its event. */
    method TimeOutOne(pk: nat, head: Head, silent: set<string>)
      requires pk < |requests|
      modifies this`requests, this`log
      ensures Tables() == old(Tables()).(
                requests := old(requests)[pk := old(requests)[pk].(state := Timeout)],
                log := old(log) + [ErasureTimeout(pk, head.correlation, head.subjectType, head.subjectKey, silent, head.dueAt)])
    {
      requests := requests[pk := requests[pk].(state := Timeout)];
      log := log + [ErasureTimeout(pk, head.correlation, head.subjectType, head.subjectKey, silent, head.dueAt)];
    }

    /** One outbox unit per open request that lost a slot. */
    method TimeOutLosers(before: seq<Request>, affected: seq<set<string>>, delivered: nat) returns (raised: bool)
      requires requests == FlipAll(before, now) && |affected| == |before|
      requires forall i :: 0 <= i < |before| ==> affected[i] == Silent(before[i], now)
      modifies this`requests, this`log
      ensures Tables() == TimeoutUnits(old(Tables()), before, Prefix(LosingRequests(before, now), delivered))
      ensures raised <==> delivered < |LosingRequests(before, now)|
    {
      ghost var s := Tables();
      var losers := LosingRequests(before, now);
      var sent := 0;
      while sent < |losers|
        invariant sent <= |losers| && sent <= delivered && |requests| == |before|
        invariant Tables() == TimeoutUnits(s, before, losers[..sent])
      {
        if sent == delivered {
          return true;
        }
        var pk := losers[sent];
        OneMoreTimeout(s, before, losers, sent);
        TimeOutOne(pk, before[pk].head, affected[pk]);
        sent := sent + 1;
      }
      assert losers[..sent] == losers;
      return false;
    }

    method Initiate(cfg: Config, user: UserId, trigger: Trigger, revocation: Revocation, emitOk: bool) returns (result: InitiateResult)
      modifies this
      ensures (Tables(), result) == InitiateClosure(old(Tables()), cfg, user, trigger, revocation, emitOk)
    {
      if exists h :: h in holds && h.user == user && h.releasedAt.None? {
        return HeldByLaw;
      }
      if exists c :: c in closures && c.head.user == user && c.Active() {
        return AlreadyPending;
      }
      var saved := (users, closures, log);
      closures := closures + [Closure(ClosureHead(user, trigger, now, now + GRACE_PERIOD), Grace, None, false,
                                      cfg.report.version, false, None, None, None)];
      if user in users {
        users := users[user := users[user].(active := false)];
      }
      if (revocation.NoSeam? && !cfg.revocationHatch) || revocation.Raises? || !emitOk {
        users, closures, log := saved.0, saved.1, saved.2;
        return if revocation.NoSeam? && !cfg.revocationHatch then RevocationUnavailable else InitiateRaised;
      }
      log := log + [SessionsRevoked(user)];
      log := log + [DeletionInitiated(user, trigger, now + GRACE_PERIOD)];
      assert log == saved.2 + [SessionsRevoked(user), DeletionInitiated(user, trigger, now + GRACE_PERIOD)];
      return Initiated(|closures| - 1);
    }

    method Cancel(user: UserId, emitOk: bool) returns (result: CancelResult)
      modifies this
      ensures (Tables(), result) == CancelClosure(old(Tables()), user, emitOk)
    {
      var found := FindGrace(closures, user);
      if found.None? {
        return NoActiveClosure;
      }
      if !emitOk {
        return CancelRaised;
      }
      var c := closures[found.value].(status := Cancelled, cancelledAt := Some(now));
      closures := closures[found.value := c];
      if user in users {
        users := users[user := users[user].(active := true)];
      }
      log := log + [DeletionCancelled(user, c.head.trigger, c.cancelledAt)];
      return CancelledClosure(found.value);
    }

    /** `erase_identity`: snapshot, run the strategy, measure. */
    method EraseRow(user: UserId, strategy: User -> StrategyOutcome) returns (erased: bool)
      modifies this`users
      ensures (users, erased) == EraseIdentity(old(users), user, strategy)
    {
      if user !in users {
        return true;
      }
      var snapshot := users[user];
      var outcome := strategy(snapshot);
      if outcome.after.Some? {
        users := users[user := outcome.after.value];
      } else {
        users := users - {user};
      }
      return !outcome.raised && IdentityGone(snapshot, outcome.after);
    }

    /** The first half of `execute_deletion`: DELETING, a correlation id, and the request. */
    method Claim(cfg: Config, c: nat, uuid: string, host: Host) returns (request: Option<nat>)
      requires c < |closures|
      modifies this
      ensures c < |closures| && (request.Some? ==> request.value < |requests|)
      ensures (Tables(), request) == EnsureRequest(MarkDeleting(old(Tables()), cfg, c, uuid), cfg, c, host)
    {
      var k := closures[c];
      var correlation := if k.correlation.Some? then k.correlation.value else uuid;
      closures := closures[c := k.(status := Deleting, registryVersion := cfg.report.version, correlation := Some(correlation))];
      ghost var marked := Tables();
      assert marked == MarkDeleting(old(Tables()), cfg, c, uuid);
      request := FindByCorrelation(requests, correlation);
      if request.None? {
        var result := OpenErasure(cfg, AccountErasure(closures[c], c), correlation, host.openEmitOk);
        request := if result.Opened? then Some(result.pk) else None;
      }
    }

    /** The second half: providers, receipts, the user row, the announcement, the re-check. */
    method EraseHere(cfg: Config, c: nat, pk: nat, host: Host) returns (result: ExecuteResult)
      requires c < |closures| && pk < |requests|
      modifies this
      ensures (Tables(), result) == EraseLocally(old(Tables()), cfg, c, pk, host)
    {
      var failed := RunDeletionInprocess(cfg.providers, host);
      var parts := RecordLocalReceipts(requests[pk], cfg.report, failed, now);
      requests := requests[pk := requests[pk].(parts := parts)];
      if failed != [] {
        return ProvidersFailed(failed);
      }
      result := EraseUser(cfg, c, pk, host);
    }

    method EraseUser(cfg: Config, c: nat, pk: nat, host: Host) returns (result: ExecuteResult)
      requires c < |closures| && pk < |requests|
      modifies this
      ensures (Tables(), result) == EraseUserRow(old(Tables()), cfg, c, pk, host)
    {
      var erased := EraseRow(closures[c].head.user, host.strategy);
      if !erased {
        return IdentitySurvives;
      }
      closures := closures[c := closures[c].(identityErasedAt := Some(now))];
      if !host.deletedEmitOk {
        return EmitRaised;
      }
      var k := closures[c].(localErasureDone := true);
      closures := closures[c := k];
      log := log + [UserDeleted(k.head.user, if k.correlation.Some? then k.correlation.value else "", k.head.trigger)];
      FinalizeIfCertain(cfg, pk);
      return Executed;
    }

    method Execute(cfg: Config, c: nat, uuid: string, host: Host) returns (result: ExecuteResult)
      requires c < |closures|
      modifies this
      ensures (Tables(), result) == ExecuteDeletion(old(Tables()), cfg, c, uuid, host)
    {
      if exists h :: h in holds && h.user == closures[c].head.user && h.releasedAt.None? {
        return ExecuteHeld;
      }
      var request := Claim(cfg, c, uuid, host);
      if request.None? {
        return OpenRaised;
      }
      result := EraseHere(cfg, c, request.value, host);
    }

    /** `process_expired_grace_periods`: the selection is read once, failures do not stop it. */
    method ExpireGracePeriods(cfg: Config, uuids: nat -> string, hosts: nat -> Host)
      modifies this
      ensures Tables() == ProcessExpiredGracePeriods(old(Tables()), cfg, uuids, hosts)
      ensures old(Inv(Tables())) && FreshDraws(old(Tables()), uuids) ==> StillSound(old(Tables()), Tables())
    {
      GraceSweepIsSound(Tables(), cfg, uuids, hosts);
      ExecuteExpired(cfg, uuids, hosts);
    }

    method ExecuteExpired(cfg: Config, uuids: nat -> string, hosts: nat -> Host)
      modifies this
      ensures Tables() == ProcessExpiredGracePeriods(old(Tables()), cfg, uuids, hosts)
    {
      ghost var s := Tables();
      var expired := SelectExpired();
      for i := 0 to |expired|
        invariant Tables() == ExecuteAll(s, cfg, expired[..i], uuids, hosts)
      {
        assert expired[..i + 1][..i] == expired[..i];
        var _ := Execute(cfg, expired[i], uuids(expired[i]), hosts(expired[i]));
      }
      assert expired[..|expired|] == expired;
    }

    method SelectExpired() returns (expired: seq<nat>)
      ensures expired == GraceCandidates(Tables(), |closures|)
    {
      expired := [];
      for c := 0 to |closures|
        invariant expired == GraceCandidates(Tables(), c)
      {
        var k := closures[c];
        if k.status.Grace? && k.head.graceEndsAt <= now && !exists h :: h in holds && h.user == k.head.user && h.releasedAt.None? {
          expired := expired + [c];
        }
      }
    }

    /** One turn of the restore command's loop. */
    method RequeueSource(cfg: Config, pk: nat, restoredFrom: int, uuid: string, emitOk: bool, requeued: nat, skipped: nat)
      returns (requeued': nat, skipped': nat, aborted: bool)
      requires pk < |requests|
      modifies this
      ensures Requeue(Tables(), requeued', skipped', aborted) ==
                RequeueOne(Requeue(old(Tables()), requeued, skipped, false), cfg, pk, restoredFrom, uuid, emitOk)
      ensures |old(requests)| <= |requests|
    {
      requeued', skipped', aborted := requeued, skipped, false;
      var result := OpenErasure(cfg, CloneArgs(requests[pk], pk, restoredFrom), uuid, emitOk);
      if result.EmitFailed? {
        aborted := true;
      } else if result.IntegrityError? || result.UnknownSubjectType? {
        skipped' := skipped + 1;
      } else {
        requeued' := requeued + 1;
      }
    }

    /** The restore command; it ends early when an emit raises out of it. */
    method RequeueErasures(cfg: Config, restoredFrom: int, dryRun: bool, uuids: nat -> string, emits: nat -> bool)
      returns (requeued: nat, skipped: nat, aborted: bool)
      modifies this
      ensures Requeue(Tables(), requeued, skipped, aborted) ==
                RequeueAfterRestore(old(Tables()), cfg, restoredFrom, dryRun, uuids, emits)
      ensures old(Inv(Tables())) && FreshDraws(old(Tables()), uuids) ==> StillSound(old(Tables()), Tables())
    {
      RequeueIsSound(Tables(), cfg, restoredFrom, dryRun, uuids, emits);
      var candidates := RequeueCandidates(requests, restoredFrom - SLACK, |requests|);
      requeued, skipped, aborted := 0, 0, false;
      if dryRun {
        return |candidates|, 0, false;
      }
      requeued, skipped, aborted := RequeueEach(cfg, candidates, restoredFrom, uuids, emits);
    }

    method RequeueEach(cfg: Config, candidates: seq<nat>, restoredFrom: int, uuids: nat -> string, emits: nat -> bool)
      returns (requeued: nat, skipped: nat, aborted: bool)
      requires forall i :: 0 <= i < |candidates| ==> candidates[i] < |requests|
      modifies this
      ensures Requeue(Tables(), requeued, skipped, aborted) ==
                RequeueAll(old(Tables()), cfg, candidates, restoredFrom, uuids, emits)
    {
      requeued, skipped, aborted := 0, 0, false;
      for i := 0 to |candidates|
        invariant !aborted && |old(requests)| <= |requests|
        invariant Requeue(Tables(), requeued, skipped, aborted) ==
                    RequeueAll(old(Tables()), cfg, candidates[..i], restoredFrom, uuids, emits)
      {
        NextTurn(old(Tables()), cfg, candidates, i, restoredFrom, uuids, emits);
        var pk := candidates[i];
        requeued, skipped, aborted := RequeueSource(cfg, pk, restoredFrom, uuids(pk), emits(pk), requeued, skipped);
        if aborted {
          AbortIsFinal(old(Tables()), cfg, candidates, i + 1, restoredFrom, uuids, emits);
          return;
        }
      }
      assert candidates[..|candidates|] == candidates;
    }

    /** `record_subprocessor_obligations`: the number of obligations that are new. */
    method RecordProcessors(cfg: Config, pk: nat, only: set<string>) returns (written: nat)
      requires pk < |requests|
      modifies this`requests
      ensures Tables() == RecordFor(old(Tables()), cfg, pk, only)
      ensures pk < |requests| && written == |requests[pk].obligations.Keys| - |old(requests)[pk].obligations.Keys|
    {
      var obligations;
      obligations, written := RecordObligations(requests[pk].obligations, cfg.processors, only, requests[pk].completedAt, now);
      requests := requests[pk := requests[pk].(obligations := obligations)];
    }

    /** Any step of the machine, performed by the method that stands for it: the class keeps
        the invariant, takes nothing back and stays on a run of the machine. */
    method Perform(step: Step)
      requires MayStep(Tables(), step)
      modifies this
      ensures Tables() == Apply(old(Tables()), step) && StillSound(old(Tables()), Tables())
    {
      StepIsSound(Tables(), step);
      PerformStep(step);
    }

    method PerformStep(step: Step)
      requires Enabled(Tables(), step)
      modifies this
      ensures Tables() == Apply(old(Tables()), step)
    {
      match step {
        case Tick(seconds) => now := now + seconds;
        case HostWritesUser(user, row) =>
          users := if row.Some? then users[user := row.value] else users - {user};
        case PlaceHold(user) => holds := holds + [Hold(user, None)];
        case ReleaseHold(i) => holds := holds[i := holds[i].(releasedAt := Some(now))];
        case Open(cfg, a, uuid, emitOk) => var _ := OpenErasure(cfg, a, uuid, emitOk);
        case Receipt(cfg, correlation, owner, id, counts) => SectionErased(cfg, correlation, owner, id, counts);
        case Sweep(delivered) => var _, _ := SweepDeadlines(delivered);
        case Initiate(cfg, user, trigger, revocation, emitOk) => var _ := Initiate(cfg, user, trigger, revocation, emitOk);
        case Cancel(user, emitOk) => var _ := Cancel(user, emitOk);
        case Execute(cfg, c, uuid, host) => var _ := Execute(cfg, c, uuid, host);
        case RecordProcessors(cfg, pk, only) => var _ := RecordProcessors(cfg, pk, only);
      }
    }

    /** A whole run. */
    method PerformAll(steps: seq<Step>)
      requires Inv(Tables()) && ValidRun(Tables(), steps)
      modifies this
      ensures Tables() == Run(old(Tables()), steps) && StillSound(old(Tables()), Tables())
    {
      RunIsSound(Tables(), steps);
      var rest := steps;
      while rest != []
        invariant ValidRun(Tables(), rest) && Run(Tables(), rest) == Run(old(Tables()), steps)
        decreases |rest|
      {
        PerformStep(rest[0]);
        rest := rest[1..];
      }
    }
  }

  lemma OneMoreTimeout(s: State, before: seq<Request>, losers: seq<nat>, n: nat)
    requires |before| == |s.requests| && n < |losers| && forall i :: 0 <= i < |losers| ==> losers[i] < |s.requests|
    ensures var t := TimeoutUnits(s, before, losers[..n]);
            TimeoutUnits(s, before, losers[..n + 1]) ==
              t.(requests := t.requests[losers[n] := t.requests[losers[n]].(state := Timeout)],
                 log := t.log + [TimeoutEvent(losers[n], before[losers[n]], s.now)])
  {
    assert losers[..n + 1][..n] == losers[..n];
  }
}
