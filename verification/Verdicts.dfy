/** When a certificate is issued, and on what terms: the verdict of every receipt and of every
    execution, read off the tables, the inventory and the receipts hatch
    (orchestrator.py `_maybe_finalize`, `execute_deletion`; lifecycle.py `erase_identity`). */
module Verdicts {
  import opened Common
  import opened Inventory
  import opened Ledger
  import opened Protocol
  import opened Runs
  import opened Invariants
  import opened Frames

  /** The inventory has no problem and somebody in it claims the subject. */
  ghost predicate SoundFor(report: RegistryReport, subject: string) {
    && !report.unconfigured && report.missing == [] && report.undeclared == {}
    && exists o :: o in report.owners && subject in o.subjects
  }

  /** An account erasure waits for its closure: DELETING, local work done, identity erased. */
  ghost predicate ClosureDone(s: State, closure: Option<nat>) {
    closure.Some? ==>
      && closure.value < |s.closures|
      && var k := s.closures[closure.value];
      k.status.Deleting? && k.localErasureDone && k.identityErasedAt.Some?
  }

  /** The request is open and nothing of its closure is outstanding. */
  ghost predicate Due(s: State, r: Request) {
    (r.state.Queued? || r.state.Erasing?) && ClosureDone(s, r.head.closure)
  }

  ghost predicate EveryDone(r: Request) {
    forall o :: o in r.parts ==> r.parts[o].state.Done?
  }

  /** The named owner's is the only receipt missing, if any. */
  ghost predicate DoneBut(r: Request, owner: string) {
    forall o :: o in r.parts ==> o == owner || r.parts[o].state.Done?
  }

  /** What the verdict on request `pk` is, given the slots it is judged over: DELETED if nothing
      speaks against it or the hatch is open, waived exactly when something does, and the
      closure takes the same verdict at the same moment. */
  ghost predicate Judged(s: State, t: State, cfg: Config, pk: nat, due: bool, allDone: bool)
    requires pk < |s.requests| && |t.requests| == |s.requests| && |t.closures| == |s.closures|
  {
    var r, r' := s.requests[pk], t.requests[pk];
    var certain := SoundFor(cfg.report, r.head.subjectType) && allDone;
    && (r'.state.Deleted? <==> due && (certain || cfg.receiptsHatch))
    && (!r'.state.Deleted? ==> r'.state == r.state && r'.waived == r.waived && r'.completedAt == r.completedAt && t.closures == s.closures)
    && (r'.state.Deleted? ==> (r'.waived <==> !certain) && r'.completedAt == Some(s.now))
    && (r'.state.Deleted? ==> ClosedOff(s.closures, t.closures, r.head.closure, s.now, !certain))
  }

  /** Only the closure named changes, and it is DELETED now, on these terms. */
  ghost predicate ClosedOff(before: seq<Closure>, after: seq<Closure>, closure: Option<nat>, now: int, waived: bool) {
    && |after| == |before|
    && (forall c :: 0 <= c < |before| && closure != Some(c) ==> after[c] == before[c])
    && (closure.Some? && closure.value < |before| ==>
          && after[closure.value].status.ClosureDeleted? && after[closure.value].deletedAt == Some(now)
          && after[closure.value].waived == waived && after[closure.value].head == before[closure.value].head
          && after[closure.value].correlation == before[closure.value].correlation)
  }

  lemma BlockersMean(cfg: Config, r: Request)
    ensures Blockers(cfg, r) == [] <==> SoundFor(cfg.report, r.head.subjectType) && EveryDone(r)
  {
    NoBlockers(cfg, r);
    ClaimNamesAreOwnersFor(cfg.report, r.head.subjectType);
    if cfg.report.OwnersFor(r.head.subjectType) != [] {
      assert cfg.report.OwnersFor(r.head.subjectType)[0] in cfg.report.OwnersFor(r.head.subjectType);
    }
  }

  /** What is held against a certificate, in order: the problems of the inventory, that nobody
      claims the subject, and exactly the owners without a receipt. */
  lemma BlockersSay(cfg: Config, r: Request)
    ensures var problems, blockers := cfg.report.Problems(), Blockers(cfg, r);
            var unclaimed := !exists o :: o in cfg.report.owners && r.head.subjectType in o.subjects;
            var missing := set o | o in r.parts && !r.parts[o].state.Done?;
            && |blockers| == |problems| + (if unclaimed then 1 else 0) + (if missing != {} then 1 else 0)
            && (forall i :: 0 <= i < |problems| ==> blockers[i] == RegistryProblem(problems[i]))
            && (unclaimed ==> blockers[|problems|] == NobodyClaims(r.head.subjectType))
            && (missing != {} ==> blockers[|blockers| - 1] == WithoutReceipt(missing))
  {
    ClaimNamesAreOwnersFor(cfg.report, r.head.subjectType);
    var owners := cfg.report.OwnersFor(r.head.subjectType);
    if owners != [] {
      assert owners[0] in owners;
    }
    assert r.Unreceipted() == set o | o in r.parts && !r.parts[o].state.Done?;
  }

  lemma FinalizeJudges(s: State, cfg: Config, pk: nat)
    requires pk < |s.requests| && !s.requests[pk].state.Deleted?
    ensures Judged(s, MaybeFinalize(s, cfg, pk), cfg, pk,
                   Due(s, s.requests[pk]),
                   EveryDone(s.requests[pk]))
  {
    BlockersMean(cfg, s.requests[pk]);
  }

  // ----- receipts -----

  /** The verdict of a receipt that fills an awaited slot. */
  lemma ReceiptVerdict(s: State, cfg: Config, correlation: string, owner: string, id: string, counts: map<string, int>, pk: nat)
    requires Inv(s) && pk < |s.requests| && s.requests[pk].head.correlation == correlation && !s.requests[pk].state.Deleted?
    requires owner in s.requests[pk].parts && !s.requests[pk].parts[owner].state.Done?
    ensures var t := Apply(s, Receipt(cfg, correlation, owner, id, counts));
            && |t.requests| == |s.requests| && |t.closures| == |s.closures|
            && Judged(s, t, cfg, pk,
                      Due(s, s.requests[pk]),
                      DoneBut(s.requests[pk], owner))
  {
    FoundIsUnique(s, pk, correlation);
    var s1 := RecordReceipt(s, pk, owner, id, counts);
    FinalizeJudges(s1, cfg, pk);
    OneMoreDone(s, pk, owner, id, counts);
    assert Due(s1, s1.requests[pk]) == Due(s, s.requests[pk]);
    JudgedAlike(s, s1, MaybeFinalize(s1, cfg, pk), cfg, pk, Due(s, s.requests[pk]), DoneBut(s.requests[pk], owner));
  }

  lemma OneMoreDone(s: State, pk: nat, owner: string, id: string, counts: map<string, int>)
    requires pk < |s.requests| && Awaits(s.requests[pk], owner)
    ensures var r, r1 := s.requests[pk], RecordReceipt(s, pk, owner, id, counts).requests[pk];
            (EveryDone(r1) <==> DoneBut(r, owner)) && r1 == r.(parts := r1.parts)
  {
    var r, r1 := s.requests[pk], RecordReceipt(s, pk, owner, id, counts).requests[pk];
    if EveryDone(r1) {
      forall o | o in r.parts ensures o == owner || r.parts[o].state.Done? {
        assert r1.parts[o].state.Done?;
      }
    }
  }

  /** Filling a slot first does not change what the verdict says. */
  lemma JudgedAlike(s: State, s1: State, t: State, cfg: Config, pk: nat, due: bool, allDone: bool)
    requires pk < |s.requests| && |s1.requests| == |s.requests| && |t.requests| == |s.requests| && |t.closures| == |s.closures|
    requires s1.requests[pk] == s.requests[pk].(parts := s1.requests[pk].parts) && s1.closures == s.closures && s1.now == s.now
    requires Judged(s1, t, cfg, pk, due, allDone)
    ensures Judged(s, t, cfg, pk, due, allDone)
  {
  }

  /** A verdict leaves every slot and every other request alone. */
  lemma FinalizeKeeps(s: State, cfg: Config, pk: nat)
    requires pk < |s.requests|
    ensures var t := MaybeFinalize(s, cfg, pk);
            && t.requests[pk].parts == s.requests[pk].parts && t.requests[pk].head == s.requests[pk].head
            && (forall i :: 0 <= i < |s.requests| && i != pk ==> t.requests[i] == s.requests[i])
            && t.users == s.users && t.log == s.log && t.now == s.now && t.holds == s.holds
  {
  }

  ghost predicate Filled(r: Request, r': Request, owner: string, id: string, counts: map<string, int>, now: int) {
    && owner in r.parts && r'.parts.Keys == r.parts.Keys
    && (forall o :: o in r.parts && o != owner ==> r'.parts[o] == r.parts[o])
    && var p := r'.parts[owner];
    && p.state.Done? && p.receiptAt == Some(now) && p.counts == counts
    && p.receiptId == (if id != "" then id else owner + ":" + r.head.correlation)
    && p.kind == r.parts[owner].kind && p.deadline == r.parts[owner].deadline
  }

  /** What a receipt writes into the ledger: the named slot of the addressed request takes the
      owner's own receipt id, or one made of owner and correlation id; nothing else of any
      slot changes, and every other receipt changes nothing at all. */
  lemma ReceiptWritesSlot(s: State, cfg: Config, correlation: string, owner: string, id: string, counts: map<string, int>, pk: nat)
    requires Inv(s) && pk < |s.requests|
    ensures var t := Apply(s, Receipt(cfg, correlation, owner, id, counts));
            var r := s.requests[pk];
            && |t.requests| == |s.requests| && t.users == s.users && t.log == s.log && t.now == s.now && t.holds == s.holds
            && (if r.head.correlation == correlation && owner in r.parts && !r.parts[owner].state.Done?
                then Filled(r, t.requests[pk], owner, id, counts, s.now)
                else t.requests[pk] == r)
  {
    FoundIsUnique(s, pk, correlation);
    var found := FindByCorrelation(s.requests, correlation);
    if found.Some? && Awaits(s.requests[found.value], owner) {
      var s1 := RecordReceipt(s, found.value, owner, id, counts);
      FinalizeKeeps(s1, cfg, found.value);
      if found.value == pk {
        SlotIsFilled(s, pk, owner, id, counts);
        SameParts(s.requests[pk], s1.requests[pk], MaybeFinalize(s1, cfg, pk).requests[pk], owner, id, counts, s.now);
      }
    }
  }

  lemma SlotIsFilled(s: State, pk: nat, owner: string, id: string, counts: map<string, int>)
    requires pk < |s.requests| && Awaits(s.requests[pk], owner)
    ensures Filled(s.requests[pk], RecordReceipt(s, pk, owner, id, counts).requests[pk], owner, id, counts, s.now)
  {
  }

  lemma SameParts(r: Request, r1: Request, r': Request, owner: string, id: string, counts: map<string, int>, now: int)
    requires Filled(r, r1, owner, id, counts, now) && r'.parts == r1.parts
    ensures Filled(r, r', owner, id, counts, now)
  {
  }

  // ----- executions -----

  /** The identity was erased: nobody on file, or a strategy that did not raise and left no
      identifying value as it was. */
  ghost predicate IdentityErased(users: map<UserId, User>, user: UserId, strategy: User -> StrategyOutcome) {
    user in users ==>
      var outcome := strategy(users[user]);
      && !outcome.raised
      && (outcome.after.Some? ==>
            forall f :: f in users[user].identity && users[user].identity[f] != "" ==>
              f !in outcome.after.value.identity || outcome.after.value.identity[f] != users[user].identity[f])
  }

  lemma EraseIdentityMeans(users: map<UserId, User>, user: UserId, strategy: User -> StrategyOutcome)
    ensures EraseIdentity(users, user, strategy).1 <==> IdentityErased(users, user, strategy)
    ensures var after := EraseIdentity(users, user, strategy).0;
            && (forall u :: u != user ==> (u in after <==> u in users) && (u in users ==> after[u] == users[u]))
            && (user !in users ==> user !in after)
            && (user in users ==> (user in after <==> strategy(users[user]).after.Some?))
            && (user in after ==> user in users && strategy(users[user]).after == Some(after[user]))
  {
  }

  /** A provider fails if it raises in either pass; failures are listed once each. */
  lemma FailedMeans(providers: seq<string>, host: Host)
    ensures forall p :: p in FailedSections(providers, host) <==> p in providers && (p in host.anonymizeFails || p in host.deleteFails)
    ensures Distinct(providers) ==> Distinct(FailedSections(providers, host))
  {
    AnonymizeMeans(providers, host);
    DeleteMeans(providers, host, AnonymizeFailures(providers, host));
  }

  lemma {:induction false} AnonymizeMeans(providers: seq<string>, host: Host)
    ensures forall p :: p in AnonymizeFailures(providers, host) <==> p in providers && p in host.anonymizeFails
    ensures Distinct(providers) ==> Distinct(AnonymizeFailures(providers, host))
  {
    if providers != [] {
      var n := |providers| - 1;
      AnonymizeMeans(providers[..n], host);
      assert providers == providers[..n] + [providers[n]];
    }
  }

  lemma {:induction false} DeleteMeans(providers: seq<string>, host: Host, failed: seq<string>)
    ensures failed <= DeleteFailures(providers, host, failed)
    ensures forall p :: p in DeleteFailures(providers, host, failed) <==> p in failed || (p in providers && p in host.deleteFails)
    ensures Distinct(failed) ==> Distinct(DeleteFailures(providers, host, failed))
  {
    if providers != [] {
      var n := |providers| - 1;
      DeleteMeans(providers[..n], host, failed);
      assert providers == providers[..n] + [providers[n]];
    }
  }

  /** No provider raises in either pass. */
  ghost predicate ProvidersRun(cfg: Config, host: Host) {
    forall p :: p in cfg.providers ==> p !in host.anonymizeFails && p !in host.deleteFails
  }

  /** The request of a closure, once `execute_deletion` has looked for it. */
  ghost predicate CanOpen(s: State, cfg: Config, c: nat, host: Host)
    requires c < |s.closures|
  {
    (exists i :: 0 <= i < |s.requests| && s.requests[i].head.closure == Some(c)) || ("account" in cfg.subjectTypes && host.openEmitOk)
  }

  ghost predicate Held(s: State, user: UserId) {
    exists i :: 0 <= i < |s.holds| && s.holds[i].user == user && s.holds[i].releasedAt.None?
  }

  lemma HeldMeans(s: State, user: UserId)
    ensures IsHeld(s, user) <==> Held(s, user)
  {
    if Held(s, user) {
      var i :| 0 <= i < |s.holds| && s.holds[i].user == user && s.holds[i].releasedAt.None?;
      assert s.holds[i] in s.holds;
    }
  }
}
