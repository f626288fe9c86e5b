/** What one `execute_deletion` does, branch by branch: where it stops, which slots it fills,
    what it leaves of the user row, and its verdict (orchestrator.py, lifecycle.py). */
module Executions {
  import opened Common
  import opened Inventory
  import opened Ledger
  import opened Protocol
  import opened Runs
  import opened Micro
  import opened Invariants
  import opened Frames
  import opened Verdicts

  // ----- the local half -----

  /** A local owner of the subject whose provider is registered and did not raise. */
  ghost predicate RanHere(cfg: Config, subject: string, host: Host, owner: string) {
    && owner !in cfg.report.missing
    && !(owner in cfg.providers && (owner in host.anonymizeFails || owner in host.deleteFails))
    && exists d :: d in cfg.report.owners && d.name == owner && d.kind.Local? && subject in d.subjects
  }

  /** Exactly the awaited slots of the owners that ran are filled, now; the others stay. */
  ghost predicate SlotsFilled(before: map<string, Part>, after: map<string, Part>, cfg: Config, subject: string, host: Host, now: int) {
    && after.Keys == before.Keys
    && forall o :: o in before ==>
         if !before[o].state.Done? && RanHere(cfg, subject, host, o)
         then after[o] == Part(Done, before[o].kind, "local:", Some(now), before[o].counts, before[o].deadline)
         else after[o] == before[o]
  }

  lemma RanMeans(cfg: Config, subject: string, host: Host, owner: string)
    ensures RanLocally(cfg.report, subject, FailedSections(cfg.providers, host), owner) <==> RanHere(cfg, subject, host, owner)
  {
    FailedMeans(cfg.providers, host);
  }

  lemma LocalSlots(s: State, cfg: Config, c: nat, pk: nat, host: Host)
    requires c < |s.closures| && pk < |s.requests|
    ensures var t := EraseLocally(s, cfg, c, pk, host).0;
            SlotsFilled(s.requests[pk].parts, t.requests[pk].parts, cfg, s.requests[pk].head.subjectType, host, s.now)
  {
    var failed := FailedSections(cfg.providers, host);
    var parts := LocalReceipts(s.requests[pk], cfg.report, failed, s.now);
    forall o ensures RanLocally(cfg.report, s.requests[pk].head.subjectType, failed, o)
                     <==> RanHere(cfg, s.requests[pk].head.subjectType, host, o)
    {
      RanMeans(cfg, s.requests[pk].head.subjectType, host, o);
    }
    LocalParts(s, cfg, c, pk, host);
  }

  /** Nothing after the local receipts touches a slot. */
  lemma LocalParts(s: State, cfg: Config, c: nat, pk: nat, host: Host)
    requires c < |s.closures| && pk < |s.requests|
    ensures var parts := LocalReceipts(s.requests[pk], cfg.report, FailedSections(cfg.providers, host), s.now);
            var r' := EraseLocally(s, cfg, c, pk, host).0.requests[pk];
            r'.parts == parts && r'.head == s.requests[pk].head
  {
    var s1 := WithParts(s, pk, LocalReceipts(s.requests[pk], cfg.report, FailedSections(cfg.providers, host), s.now));
    UserRowParts(s1, cfg, c, pk, host);
  }

  lemma UserRowParts(s: State, cfg: Config, c: nat, pk: nat, host: Host)
    requires c < |s.closures| && pk < |s.requests|
    ensures var r' := EraseUserRow(s, cfg, c, pk, host).0.requests[pk];
            r'.parts == s.requests[pk].parts && r'.head == s.requests[pk].head
  {
    if EraseUserRow(s, cfg, c, pk, host).1.Executed? {
      FinalizeKeeps(Announced(s, c, host), cfg, pk);
    }
  }

  /** The tables just before the re-check: identity erased, local work announced. */
  ghost function Announced(s: State, c: nat, host: Host): State
    requires c < |s.closures|
  {
    var k := s.closures[c];
    var users := EraseIdentity(s.users, k.head.user, host.strategy).0;
    AnnounceLocal(WithClosure(s.(users := users), c, k.(identityErasedAt := Some(s.now))), c)
  }

  /** Where the local half stops. */
  lemma LocalResult(s: State, cfg: Config, c: nat, pk: nat, host: Host)
    requires c < |s.closures| && pk < |s.requests|
    ensures var result := EraseLocally(s, cfg, c, pk, host).1;
            var user := s.closures[c].head.user;
            && (result.ProvidersFailed? <==> !ProvidersRun(cfg, host))
            && (result.IdentitySurvives? <==> ProvidersRun(cfg, host) && !IdentityErased(s.users, user, host.strategy))
            && (result.EmitRaised? <==> ProvidersRun(cfg, host) && IdentityErased(s.users, user, host.strategy) && !host.deletedEmitOk)
            && (result.Executed? <==> ProvidersRun(cfg, host) && IdentityErased(s.users, user, host.strategy) && host.deletedEmitOk)
  {
    FailedMeans(cfg.providers, host);
    var failed := FailedSections(cfg.providers, host);
    if failed != [] {
      assert failed[0] in failed;
    }
    EraseIdentityMeans(s.users, s.closures[c].head.user, host.strategy);
  }

  /** What the local half leaves of the closure, the users and the log, by where it stopped. */
  lemma LocalEffects(s: State, cfg: Config, c: nat, pk: nat, host: Host)
    requires c < |s.closures| && pk < |s.requests| && s.requests[pk].head.closure == Some(c)
    ensures var (t, result) := EraseLocally(s, cfg, c, pk, host);
            var k, k' := s.closures[c], t.closures[c];
            var reached := !result.ProvidersFailed?;
            var marked := result.EmitRaised? || result.Executed?;
            && t.users == (if reached then EraseIdentity(s.users, k.head.user, host.strategy).0 else s.users)
            && k'.identityErasedAt == (if marked then Some(s.now) else k.identityErasedAt)
            && k'.localErasureDone == (k.localErasureDone || result.Executed?)
            && k'.head == k.head && k'.correlation == k.correlation && k'.registryVersion == k.registryVersion
            && (!result.Executed? ==> k'.status == k.status && t.log == s.log)
            && (result.Executed? ==>
                  |t.log| == |s.log| + 1 && s.log <= t.log
                  && t.log[|s.log|] == UserDeleted(k.head.user, if k.correlation.Some? then k.correlation.value else "", k.head.trigger))
  {
  }

  /** The verdict of an execution that went through. */
  lemma LocalVerdict(s: State, cfg: Config, c: nat, pk: nat, host: Host)
    requires c < |s.closures| && pk < |s.requests| && s.requests[pk].head.closure == Some(c)
    requires s.closures[c].status.Deleting? && !s.requests[pk].state.Deleted? && EraseLocally(s, cfg, c, pk, host).1.Executed?
    ensures var t := EraseLocally(s, cfg, c, pk, host).0;
            Concluded(s.requests[pk], t.requests[pk], t.closures[c], cfg, s.now)
  {
    var s1 := WithParts(s, pk, LocalReceipts(s.requests[pk], cfg.report, FailedSections(cfg.providers, host), s.now));
    var s2 := Announced(s1, c, host);
    assert EraseLocally(s, cfg, c, pk, host).0 == MaybeFinalize(s2, cfg, pk);
    FinalizeJudges(s2, cfg, pk);
    FinalizeKeeps(s2, cfg, pk);
    assert Due(s2, s2.requests[pk]) <==> s.requests[pk].state.Queued? || s.requests[pk].state.Erasing?;
    JudgedConcludes(s2, MaybeFinalize(s2, cfg, pk), cfg, pk, c);
  }

  /** DELETED if it was open and either nothing speaks against it or the hatch is on, waived
      exactly when something does; the closure takes the same verdict. */
  ghost predicate Concluded(r: Request, r': Request, k': Closure, cfg: Config, now: int) {
    var certain := SoundFor(cfg.report, r.head.subjectType) && EveryDone(r');
    && (r'.state.Deleted? <==> (r.state.Queued? || r.state.Erasing?) && (certain || cfg.receiptsHatch))
    && (r'.state.Deleted? ==> (r'.waived <==> !certain) && r'.completedAt == Some(now))
    && (r'.state.Deleted? ==> k'.status.ClosureDeleted? && k'.waived == r'.waived && k'.deletedAt == Some(now))
    && (!r'.state.Deleted? ==> r'.state == r.state && r'.waived == r.waived && k'.status.Deleting?)
  }

  lemma JudgedConcludes(s: State, t: State, cfg: Config, pk: nat, c: nat)
    requires pk < |s.requests| && |t.requests| == |s.requests| && |t.closures| == |s.closures| && c < |s.closures|
    requires s.requests[pk].head.closure == Some(c) && s.closures[c].status.Deleting?
    requires t.requests[pk].parts == s.requests[pk].parts
    requires Judged(s, t, cfg, pk, s.requests[pk].state.Queued? || s.requests[pk].state.Erasing?, EveryDone(s.requests[pk]))
    ensures Concluded(s.requests[pk], t.requests[pk], t.closures[c], cfg, s.now)
  {
    assert EveryDone(t.requests[pk]) <==> EveryDone(s.requests[pk]);
  }

  // ----- the whole of it -----

  /** The closure's own request is found, or opened if accounts are declared and the emit goes
      out; otherwise the call ends there. */
  lemma RequestOfClosure(s: State, cfg: Config, c: nat, uuid: string, host: Host)
    requires Inv(s) && Enabled(s, Execute(cfg, c, uuid, host))
    ensures var (s2, pk) := EnsureRequest(MarkDeleting(s, cfg, c, uuid), cfg, c, host);
            && (pk.Some? <==> CanOpen(s, cfg, c, host))
            && (pk.Some? && pk.value < |s.requests| ==> s.requests[pk.value].head.closure == Some(c))
            && (pk.Some? ==> pk.value < |s.requests| || pk.value == |s.requests|)
  {
    var s1 := MarkDeleting(s, cfg, c, uuid);
    var correlation := s1.closures[c].correlation.value;
    var found := FindByCorrelation(s.requests, correlation);
    FoundIff(s, cfg, c, uuid, host);
    if found.None? {
      assert !ViolatesUnique(s1.requests, NewHead(s1, cfg, AccountErasure(s1.closures[c], c), correlation));
    }
  }

  lemma FoundIff(s: State, cfg: Config, c: nat, uuid: string, host: Host)
    requires Inv(s) && Enabled(s, Execute(cfg, c, uuid, host))
    ensures var found := FindByCorrelation(s.requests, MarkDeleting(s, cfg, c, uuid).closures[c].correlation.value);
            && (found.Some? <==> exists i :: 0 <= i < |s.requests| && s.requests[i].head.closure == Some(c))
            && (found.Some? ==> s.requests[found.value].head.closure == Some(c))
  {
    var k := s.closures[c];
    var correlation := MarkDeleting(s, cfg, c, uuid).closures[c].correlation.value;
    var found := FindByCorrelation(s.requests, correlation);
    if found.Some? {
      assert k.correlation.Some?;
      assert s.closures[c].correlation == Some(s.requests[found.value].head.correlation);
    }
    forall i | 0 <= i < |s.requests| && s.requests[i].head.closure == Some(c) ensures found.Some? {
      assert s.closures[c].correlation == Some(s.requests[i].head.correlation);
    }
  }

  /** Where an execution ends, for every state, configuration and host. A legal hold comes first
      and leaves everything as it was. */
  lemma ExecutionEnds(s: State, cfg: Config, c: nat, uuid: string, host: Host)
    requires Inv(s) && Enabled(s, Execute(cfg, c, uuid, host))
    ensures var (t, result) := ExecuteDeletion(s, cfg, c, uuid, host);
            var user := s.closures[c].head.user;
            var begins := !Held(s, user) && CanOpen(s, cfg, c, host);
            && (result.ExecuteHeld? <==> Held(s, user)) && (Held(s, user) ==> t == s)
            && (result.OpenRaised? <==> !Held(s, user) && !CanOpen(s, cfg, c, host))
            && (result.ProvidersFailed? <==> begins && !ProvidersRun(cfg, host))
            && (result.IdentitySurvives? <==> begins && ProvidersRun(cfg, host) && !IdentityErased(s.users, user, host.strategy))
            && (result.EmitRaised? <==>
                  begins && ProvidersRun(cfg, host) && IdentityErased(s.users, user, host.strategy) && !host.deletedEmitOk)
            && (result.Executed? <==>
                  begins && ProvidersRun(cfg, host) && IdentityErased(s.users, user, host.strategy) && host.deletedEmitOk)
  {
    HeldMeans(s, s.closures[c].head.user);
    RequestOfClosure(s, cfg, c, uuid, host);
    EnsureFrame(s, cfg, c, uuid, host);
    var (s2, pk) := EnsureRequest(MarkDeleting(s, cfg, c, uuid), cfg, c, host);
    if pk.Some? {
      LocalResult(s2, cfg, c, pk.value, host);
    }
  }

  /** The request as the execution found it, or as it opened it. */
  ghost function Opening(s: State, t: State, pk: nat): Request
    requires pk < |t.requests|
  {
    if pk < |s.requests| then s.requests[pk]
    else t.requests[pk].(state := Erasing, waived := false, parts := map o | o in t.requests[pk].parts ::
                           Part(Pending, t.requests[pk].parts[o].kind, "", None, map[], t.requests[pk].parts[o].deadline))
  }

  lemma FreshRow(s: State, cfg: Config, c: nat, uuid: string, host: Host)
    requires Inv(s) && Enabled(s, Execute(cfg, c, uuid, host))
    ensures var (s2, pk) := EnsureRequest(MarkDeleting(s, cfg, c, uuid), cfg, c, host);
            && (pk.Some? && pk.value < |s.requests| ==> s2.requests[pk.value] == s.requests[pk.value])
            && (pk.Some? && pk.value >= |s.requests| ==>
                  && pk.value < |s2.requests| && s2.requests[pk.value].state.Erasing? && !s2.requests[pk.value].waived
                  && forall o :: o in s2.requests[pk.value].parts ==>
                       s2.requests[pk.value].parts[o] == Part(Pending, s2.requests[pk.value].parts[o].kind, "", None, map[], s2.requests[pk.value].parts[o].deadline))
  {
    EnsureFrame(s, cfg, c, uuid, host);
    var (s2, pk) := EnsureRequest(MarkDeleting(s, cfg, c, uuid), cfg, c, host);
    SlotsFresh(cfg.report.OwnersFor(SUBJECT_ACCOUNT), s2.now);
    if pk.Some? && pk.value < |s.requests| {
      assert s2.requests[pk.value] == s2.requests[..|s.requests|][pk.value];
    }
  }

  lemma {:induction false} SlotsFresh(owners: seq<DataOwner>, now: int)
    ensures forall o :: o in Slots(owners, now) ==>
              Slots(owners, now)[o] == Part(Pending, Slots(owners, now)[o].kind, "", None, map[], Slots(owners, now)[o].deadline)
  {
    if owners != [] {
      SlotsFresh(owners[..|owners| - 1], now);
    }
  }

  /** The verdict of an execution that goes through, for every inventory and either position of
      the hatch; and the slots it fills on the way. */
  lemma ExecutionVerdict(s: State, cfg: Config, c: nat, uuid: string, host: Host) returns (pk: nat)
    requires Inv(s) && Enabled(s, Execute(cfg, c, uuid, host)) && ExecuteDeletion(s, cfg, c, uuid, host).1.Executed?
    ensures var t := Apply(s, Execute(cfg, c, uuid, host));
            && pk < |t.requests| && t.requests[pk].head.closure == Some(c)
            && Concluded(Opening(s, t, pk), t.requests[pk], t.closures[c], cfg, s.now)
            && SlotsFilled(Opening(s, t, pk).parts, t.requests[pk].parts, cfg, t.requests[pk].head.subjectType, host, s.now)
  {
    RequestOfClosure(s, cfg, c, uuid, host);
    EnsureWrites(s, cfg, c, uuid, host);
    EnsureFrame(s, cfg, c, uuid, host);
    FreshRow(s, cfg, c, uuid, host);
    var (s2, found) := EnsureRequest(MarkDeleting(s, cfg, c, uuid), cfg, c, host);
    pk := found.value;
    NotYetDeleted(s, s2, pk, c);
    LocalVerdict(s2, cfg, c, pk, host);
    LocalSlots(s2, cfg, c, pk, host);
    LocalParts(s2, cfg, c, pk, host);
    SameOpening(s, s2, EraseLocally(s2, cfg, c, pk, host).0, pk, cfg, host);
  }

  lemma NotYetDeleted(s: State, s2: State, pk: nat, c: nat)
    requires Inv(s) && c < |s.closures| && s.closures[c].Active() && pk < |s2.requests| && s2.requests[pk].head.closure == Some(c)
    requires if pk < |s.requests| then s2.requests[pk] == s.requests[pk] else s2.requests[pk].state.Erasing?
    ensures !s2.requests[pk].state.Deleted?
  {
  }

  lemma SameOpening(s: State, s2: State, t: State, pk: nat, cfg: Config, host: Host)
    requires pk < |s2.requests| && pk < |t.requests| && t.requests[pk].head == s2.requests[pk].head
    requires pk < |s.requests| ==> s2.requests[pk] == s.requests[pk]
    requires pk >= |s.requests| ==>
               && s2.requests[pk].state.Erasing? && !s2.requests[pk].waived
               && forall o :: o in s2.requests[pk].parts ==>
                    s2.requests[pk].parts[o] == Part(Pending, s2.requests[pk].parts[o].kind, "", None, map[], s2.requests[pk].parts[o].deadline)
    requires SlotsFilled(s2.requests[pk].parts, t.requests[pk].parts, cfg, t.requests[pk].head.subjectType, host, s.now)
    ensures Opening(s, t, pk).state == s2.requests[pk].state && Opening(s, t, pk).waived == s2.requests[pk].waived
    ensures Opening(s, t, pk).parts == s2.requests[pk].parts && Opening(s, t, pk).head == s2.requests[pk].head
  {
    if pk >= |s.requests| {
      var a, b := Opening(s, t, pk).parts, s2.requests[pk].parts;
      forall o | o in b ensures o in a && a[o] == b[o] {
      }
      assert a == b;
    }
  }

  /** What an execution writes on the closure, the users and the log, by where it ended. */
  lemma ExecutionWritesRows(s: State, cfg: Config, c: nat, uuid: string, host: Host)
    requires Inv(s) && Enabled(s, Execute(cfg, c, uuid, host)) && !Held(s, s.closures[c].head.user)
    ensures var (t, result) := ExecuteDeletion(s, cfg, c, uuid, host);
            var k, k' := s.closures[c], t.closures[c];
            var correlation := if k.correlation.Some? then k.correlation.value else uuid;
            var reached := result.IdentitySurvives? || result.EmitRaised? || result.Executed?;
            && k'.registryVersion == cfg.report.version && k'.correlation == Some(correlation) && k'.head == k.head
            && (!result.Executed? ==> k'.status.Deleting? && k'.localErasureDone == k.localErasureDone)
            && k'.identityErasedAt == (if result.EmitRaised? || result.Executed? then Some(s.now) else k.identityErasedAt)
            && t.users == (if reached then EraseIdentity(s.users, k.head.user, host.strategy).0 else s.users)
            && (result.Executed? ==>
                  k'.localErasureDone && |t.log| > |s.log| && t.log[|t.log| - 1] == UserDeleted(k.head.user, correlation, k.head.trigger))
  {
    HeldMeans(s, s.closures[c].head.user);
    EnsureFrame(s, cfg, c, uuid, host);
    EnsureWrites(s, cfg, c, uuid, host);
    EnsureLog(s, cfg, c, uuid, host);
    var (s2, pk) := EnsureRequest(MarkDeleting(s, cfg, c, uuid), cfg, c, host);
    if pk.Some? {
      LocalEffects(s2, cfg, c, pk.value, host);
    }
  }

  lemma EnsureLog(s: State, cfg: Config, c: nat, uuid: string, host: Host)
    requires c < |s.closures|
    ensures s.log <= EnsureRequest(MarkDeleting(s, cfg, c, uuid), cfg, c, host).0.log
  {
  }
}
