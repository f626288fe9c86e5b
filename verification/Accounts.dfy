/** Account closures over whole runs: what DELETED rests on, who may cancel, who is
    denied access, and which closures are never picked up again. */
module Accounts {
  import opened Common
  import opened Ledger
  import opened Protocol
  import opened Runs
  import opened Micro
  import opened Invariants
  import opened Frames
  import opened Delivery
  import opened Certification

  // ----- a closure is DELETED only with its ledger and its identity -----

  /** Even with the receipts hatch on: DELETED rests on a DELETED erasure of this very
      closure, on finished local work and on an erased identity; un-waived, that erasure
      is complete. */
  lemma DeletedClosure(s: State, c: nat)
    requires Reachable(s) && c < |s.closures| && s.closures[c].status.ClosureDeleted?
    ensures s.closures[c].localErasureDone && s.closures[c].identityErasedAt.Some?
    ensures exists i: nat :: Certifies(s, i, c) && (!s.closures[c].waived ==> s.requests[i].Outcome() == Complete)
  {
    ReachableIsSound(s);
    assert ClosureSound(s.closures[c]);
    var i: nat :| Certifies(s, i, c);
    CompleteMeans(s.requests[i]);
    assert RequestSound(s.requests[i]);
  }

  /** One closure, one request: whatever is re-run, the correlation id and the request
      stay, and filled slots are never emptied or rewritten. */
  lemma ReExecution(s: State, steps: seq<Step>, c: nat, i: nat, j: nat)
    requires Inv(s) && ValidRun(s, steps) && c < |s.closures|
    requires i < |s.requests| && s.requests[i].head.closure == Some(c)
    requires j < |Run(s, steps).requests| && Run(s, steps).requests[j].head.closure == Some(c)
    ensures j == i
    ensures c < |Run(s, steps).closures| && Run(s, steps).closures[c].correlation == s.closures[c].correlation
    ensures forall o :: o in s.requests[i].parts && s.requests[i].parts[o].state.Done? ==>
              o in Run(s, steps).requests[i].parts && Run(s, steps).requests[i].parts[o] == s.requests[i].parts[o]
  {
    var t := Run(s, steps);
    RunKeeps(s, steps);
    assert ClosureEvolves(s.closures[c], t.closures[c]);
    assert RequestEvolves(s.requests[i], t.requests[i]);
    assert s.closures[c].correlation == Some(s.requests[i].head.correlation);
    assert t.closures[c].correlation == Some(t.requests[j].head.correlation);
    assert t.requests[i].head.correlation == t.requests[j].head.correlation;
    FoundIsUnique(t, i, t.requests[i].head.correlation);
    FoundIsUnique(t, j, t.requests[i].head.correlation);
    forall o | o in s.requests[i].parts && s.requests[i].parts[o].state.Done?
      ensures o in t.requests[i].parts && t.requests[i].parts[o] == s.requests[i].parts[o]
    {
      assert PartEvolves(s.requests[i].parts[o], t.requests[i].parts[o]);
    }
  }

  /** In this step the closure was executed and no identifying value of its user survived. */
  ghost predicate VerifiesIdentity(s: State, step: Step, c: nat) {
    && Enabled(s, step) && step.Execute? && step.closure == c
    && var u := s.closures[c].head.user;
    u in s.users ==> IdentityGone(s.users[u], if u in Apply(s, step).users then Some(Apply(s, step).users[u]) else None)
  }

  lemma ReceiptKeepsMark(s: State, cfg: Config, correlation: string, owner: string, id: string, counts: map<string, int>, c: nat)
    requires c < |s.closures|
    ensures MarkSectionErased(s, cfg, correlation, owner, id, counts).closures[c].identityErasedAt == s.closures[c].identityErasedAt
  {
  }

  /** The mark is set only by an execution that measured the result. */
  lemma MarkedByVerification(s: State, step: Step, c: nat)
    requires Inv(s) && Enabled(s, step) && c < |Apply(s, step).closures|
    requires c < |s.closures| ==> s.closures[c].identityErasedAt.None?
    requires Apply(s, step).closures[c].identityErasedAt.Some?
    ensures c < |s.closures| && VerifiesIdentity(s, step, c)
  {
    match step
    case Execute(cfg, d, uuid, host) =>
      ExecuteFrame(s, cfg, d, uuid, host);
      ExecuteVerifies(s, cfg, c, uuid, host);
    case Receipt(cfg, correlation, owner, id, counts) =>
      ReceiptKeepsMark(s, cfg, correlation, owner, id, counts, c);
      assert false;
    case Sweep(delivered) => assert false;
    case _ => assert false;
  }

  lemma ExecuteVerifies(s: State, cfg: Config, c: nat, uuid: string, host: Host)
    requires Inv(s) && Enabled(s, Execute(cfg, c, uuid, host)) && s.closures[c].identityErasedAt.None?
    requires ExecuteDeletion(s, cfg, c, uuid, host).0.closures[c].identityErasedAt.Some?
    ensures VerifiesIdentity(s, Execute(cfg, c, uuid, host), c)
  {
    EnsureFrame(s, cfg, c, uuid, host);
    EnsureWrites(s, cfg, c, uuid, host);
    var (s2, pk) := EnsureRequest(MarkDeleting(s, cfg, c, uuid), cfg, c, host);
    if pk.Some? {
      var failed := FailedSections(cfg.providers, host);
      var s3 := WithParts(s2, pk.value, LocalReceipts(s2.requests[pk.value], cfg.report, failed, s2.now));
      UserRowOf(s3, cfg, c, pk.value, host);
    }
  }

  lemma UserRowOf(s: State, cfg: Config, c: nat, pk: nat, host: Host)
    requires c < |s.closures| && pk < |s.requests|
    ensures var (t, result) := EraseUserRow(s, cfg, c, pk, host);
            var u := s.closures[c].head.user;
            && |t.closures| == |s.closures|
            && t.users == EraseIdentity(s.users, u, host.strategy).0
            && (t.closures[c].identityErasedAt == s.closures[c].identityErasedAt || EraseIdentity(s.users, u, host.strategy).1)
  {
  }

  /** For every host strategy, a no-op included: a closure that ends DELETED went through a
      step after which no identifying value of its user was left. */
  lemma {:induction false} DeletedOnlyIfVerified(s: State, steps: seq<Step>, c: nat)
    requires Inv(s) && ValidRun(s, steps)
    requires c < |s.closures| ==> s.closures[c].identityErasedAt.None?
    requires c < |Run(s, steps).closures| && Run(s, steps).closures[c].status.ClosureDeleted?
    ensures exists i :: 0 <= i < |steps| && ValidRun(s, steps[..i]) && VerifiesIdentity(Run(s, steps[..i]), steps[i], c)
    decreases |steps|
  {
    RunKeeps(s, steps);
    assert ClosureSound(Run(s, steps).closures[c]);
    if |steps| != 0 {
      var t := Apply(s, steps[0]);
      StepKeeps(s, steps[0]);
      if c < |t.closures| && t.closures[c].identityErasedAt.Some? {
        MarkedByVerification(s, steps[0], c);
        assert steps[..0] == [];
        assert ValidRun(s, steps[..0]) && VerifiesIdentity(Run(s, steps[..0]), steps[0], c);
      } else {
        DeletedOnlyIfVerified(t, steps[1..], c);
        var i :| 0 <= i < |steps[1..]| && ValidRun(t, steps[1..][..i]) && VerifiesIdentity(Run(t, steps[1..][..i]), steps[1..][i], c);
        VerifiedLater(s, steps, i, c);
      }
    }
  }

  lemma VerifiedLater(s: State, steps: seq<Step>, i: nat, c: nat)
    requires |steps| != 0 && Enabled(s, steps[0]) && i < |steps| - 1
    requires ValidRun(Apply(s, steps[0]), steps[1..][..i])
    requires VerifiesIdentity(Run(Apply(s, steps[0]), steps[1..][..i]), steps[1..][i], c)
    ensures ValidRun(s, steps[..i + 1]) && VerifiesIdentity(Run(s, steps[..i + 1]), steps[i + 1], c)
  {
    var longer := steps[..i + 1];
    assert longer[1..] == steps[1..][..i] && longer[0] == steps[0] && steps[i + 1] == steps[1..][i];
  }

  // ----- one active closure, always the newest -----

  lemma OneActiveClosure(s: State, c: nat, d: nat)
    requires Reachable(s) && c < |s.closures| && d < |s.closures|
    requires s.closures[c].Active() && s.closures[c].head.user == s.closures[d].head.user
    ensures s.closures[d].Active() ==> d == c
    ensures Newest(s.closures, s.closures[c].head.user) == Some(c)
  {
    ReachableIsSound(s);
  }

  /** An accepted token cancels the closure it names and no other row; it is answered
      "not found" exactly when that closure has left its grace period. */
  lemma TokenCancelsItsClosure(s: State, c: nat, subject: UserId, expires: int, emitOk: bool)
    requires Reachable(s) && ClosureFromToken(s, Signed(c, subject, expires)) == Accepted(c)
    ensures var (t, response) := CancelWithToken(s, Signed(c, subject, expires), emitOk);
            && c < |s.closures| && |t.closures| == |s.closures| && t.requests == s.requests
            && (forall d :: 0 <= d < |s.closures| && d != c ==> t.closures[d] == s.closures[d])
            && (response == NotFound <==> !s.closures[c].status.Grace?)
            && (s.closures[c].status.Grace? && emitOk ==>
                  response == CancelledOk(c) && t.closures[c] == s.closures[c].(status := Cancelled, cancelledAt := Some(s.now)))
            && (!s.closures[c].status.Grace? || !emitOk ==> t == s)
  {
    ReachableIsSound(s);
    var found := FindGrace(s.closures, subject);
    if found.Some? {
      OneActiveClosure(s, found.value, c);
      assert found.value == c;
    }
  }

  // ----- access -----

  lemma DeniedMeans(s: State, user: UserId)
    ensures IsAccessDenied(s, user) <==>
              exists c :: 0 <= c < |s.closures| && s.closures[c].head.user == user
                          && (s.closures[c].status.Deleting? || s.closures[c].status.ClosureDeleted?)
  {
    var statuses := set k | k in s.closures && k.head.user == user && !k.status.Cancelled? :: k.status;
    if IsAccessDenied(s, user) {
      var status :| status in statuses && (status.Deleting? || status.ClosureDeleted?);
      var k :| k in s.closures && k.head.user == user && !k.status.Cancelled? && k.status == status;
    }
    if c :| 0 <= c < |s.closures| && s.closures[c].head.user == user
            && (s.closures[c].status.Deleting? || s.closures[c].status.ClosureDeleted?)
    {
      assert s.closures[c] in s.closures;
      assert s.closures[c].status in statuses;
    }
  }

  /** Access once denied is denied in every continuation, whatever is written to the user row. */
  lemma DenialIsIrreversible(s: State, steps: seq<Step>, user: UserId)
    requires Reachable(s) && ValidRun(s, steps) && IsAccessDenied(s, user)
    ensures IsAccessDenied(Run(s, steps), user)
  {
    ReachableIsSound(s);
    RunKeeps(s, steps);
    DeniedMeans(s, user);
    DeniedMeans(Run(s, steps), user);
    var c :| 0 <= c < |s.closures| && s.closures[c].head.user == user
             && (s.closures[c].status.Deleting? || s.closures[c].status.ClosureDeleted?);
    assert ClosureEvolves(s.closures[c], Run(s, steps).closures[c]);
  }

  // ----- the grace sweep -----

  /** Executions happen only when the grace sweep selects the closure. */
  ghost predicate SweepDriven(s: State, steps: seq<Step>)
    requires ValidRun(s, steps)
    decreases |steps|
  {
    |steps| == 0 ||
    ((steps[0].Execute? ==> steps[0].closure in GraceCandidates(s, |s.closures|)) && SweepDriven(Apply(s, steps[0]), steps[1..]))
  }

  ghost predicate HalfErased(k: Closure) {
    k.status.Deleting? && !k.localErasureDone
  }

  /** A closure whose execution stopped half-way is never selected again: under the sweep
      alone it stays DELETING for ever, whoever confirms. */
  lemma {:induction false} NeverRetried(s: State, steps: seq<Step>, c: nat)
    requires Inv(s) && ValidRun(s, steps) && SweepDriven(s, steps)
    requires c < |s.closures| && HalfErased(s.closures[c])
    ensures c < |Run(s, steps).closures| && HalfErased(Run(s, steps).closures[c])
    decreases |steps|
  {
    if |steps| != 0 {
      StepKeeps(s, steps[0]);
      HalfErasedStays(s, steps[0], c);
      NeverRetried(Apply(s, steps[0]), steps[1..], c);
    }
  }

  lemma HalfErasedStays(s: State, step: Step, c: nat)
    requires Inv(s) && Enabled(s, step) && c < |s.closures| && HalfErased(s.closures[c])
    requires step.Execute? ==> step.closure in GraceCandidates(s, |s.closures|)
    ensures c < |Apply(s, step).closures| && HalfErased(Apply(s, step).closures[c])
  {
    match step
    case Execute(cfg, d, uuid, host) =>
      assert d != c;
      ExecuteFrame(s, cfg, d, uuid, host);
    case Receipt(cfg, correlation, owner, id, counts) =>
      ReceiptNeedsLocalWork(s, cfg, correlation, owner, id, counts, c);
    case _ =>
  }

  lemma ReceiptNeedsLocalWork(s: State, cfg: Config, correlation: string, owner: string, id: string,
                              counts: map<string, int>, c: nat)
    requires c < |s.closures| && HalfErased(s.closures[c])
    ensures var t := MarkSectionErased(s, cfg, correlation, owner, id, counts);
            c < |t.closures| && t.closures[c] == s.closures[c]
  {
  }

  /** Some continuation under the sweep alone closes the account. */
  ghost predicate CanStillClose(s: State, c: nat) {
    exists steps :: ValidRun(s, steps) && SweepDriven(s, steps)
                    && c < |Run(s, steps).closures| && Run(s, steps).closures[c].status.ClosureDeleted?
  }

  /** Request `pk` runs for closure `c`, is open, and some owner has not confirmed. */
  ghost predicate WaitsFor(s: State, pk: nat, c: nat) {
    && pk < |s.requests| && s.requests[pk].head.closure == Some(c)
    && s.requests[pk].Open() && !s.requests[pk].AllDone()
  }

  /** DELETING, but with no request that a receipt could still complete: it was never opened,
      it timed out, or its last receipt met an inventory that could not certify. */
  ghost predicate Abandoned(s: State, c: nat) {
    c < |s.closures| && s.closures[c].status.Deleting? && forall pk: nat :: !WaitsFor(s, pk, c)
  }

  /** Exactly when the sweep and the owners can finish a DELETING closure without another
      call of `execute_deletion`: its local work is done and its request is open and waits
      for somebody. */
  lemma ClosableIff(s: State, c: nat)
    requires Inv(s) && c < |s.closures| && s.closures[c].status.Deleting?
    ensures CanStillClose(s, c) <==> s.closures[c].localErasureDone && exists pk: nat :: WaitsFor(s, pk, c)
  {
    if CanStillClose(s, c) {
      var steps :| ValidRun(s, steps) && SweepDriven(s, steps)
                   && c < |Run(s, steps).closures| && Run(s, steps).closures[c].status.ClosureDeleted?;
      if !s.closures[c].localErasureDone {
        NeverRetried(s, steps, c);
        assert false;
      }
      if Abandoned(s, c) {
        AbandonedForEver(s, steps, c);
        assert false;
      }
    }
    if s.closures[c].localErasureDone && exists pk: nat :: WaitsFor(s, pk, c) {
      var pk: nat :| WaitsFor(s, pk, c);
      WaitingCloses(s, c, pk);
    }
  }

  lemma WaitingCloses(s: State, c: nat, pk: nat)
    requires Inv(s) && c < |s.closures| && s.closures[c].status.Deleting? && s.closures[c].localErasureDone && WaitsFor(s, pk, c)
    ensures CanStillClose(s, c)
  {
    assert ClosureSound(s.closures[c]);
    assert RequestSound(s.requests[pk]);
    var steps := OwnersAnswer(s, pk);
    var t := Run(s, steps);
    RunKeeps(s, steps);
    assert RequestEvolves(s.requests[pk], t.requests[pk]);
    assert t.closures[c].status.ClosureDeleted?;
  }

  lemma {:induction false} AbandonedForEver(s: State, steps: seq<Step>, c: nat)
    requires Inv(s) && ValidRun(s, steps) && SweepDriven(s, steps) && Abandoned(s, c)
    ensures Abandoned(Run(s, steps), c)
    decreases |steps|
  {
    if |steps| != 0 {
      StepKeeps(s, steps[0]);
      AbandonedStays(s, steps[0], c);
      AbandonedForEver(Apply(s, steps[0]), steps[1..], c);
    }
  }

  lemma AbandonedStays(s: State, step: Step, c: nat)
    requires Inv(s) && Enabled(s, step) && Abandoned(s, c)
    requires step.Execute? ==> step.closure in GraceCandidates(s, |s.closures|)
    ensures Abandoned(Apply(s, step), c)
  {
    var t := Apply(s, step);
    StepKeeps(s, step);
    assert ClosureEvolves(s.closures[c], t.closures[c]);
    forall i: nat | i < |t.requests| && t.requests[i].head.closure == Some(c)
      ensures !t.requests[i].state.Deleted? && !WaitsFor(t, i, c)
    {
      OldRequest(s, step, c, i);
      assert RequestEvolves(s.requests[i], t.requests[i]);
      assert !WaitsFor(s, i, c) && !s.requests[i].state.Deleted?;
      if s.requests[i].Open() {
        StaysOpen(s, step, i);
        forall o | o in t.requests[i].parts ensures t.requests[i].parts[o].state.Done? {
          assert PartEvolves(s.requests[i].parts[o], t.requests[i].parts[o]);
        }
      }
    }
    assert forall i: nat :: !Certifies(t, i, c);
  }

  /** Only an execution opens a request for a closure, and only for its own. */
  lemma OldRequest(s: State, step: Step, c: nat, i: nat)
    requires Inv(s) && Enabled(s, step) && (step.Execute? ==> step.closure != c)
    requires i < |Apply(s, step).requests| && Apply(s, step).requests[i].head.closure == Some(c)
    ensures i < |s.requests|
  {
    match step
    case Open(cfg, a, uuid, emitOk) =>
    case Execute(cfg, d, uuid, host) => NewBelongsToExecuted(s, cfg, d, uuid, host);
    case Receipt(cfg, correlation, owner, id, counts) =>
    case Sweep(delivered) =>
    case RecordProcessors(_, _, _) =>
    case _ => NoRequestFrame(s, step);
  }

  lemma NewBelongsToExecuted(s: State, cfg: Config, c: nat, uuid: string, host: Host)
    requires Inv(s) && Enabled(s, Execute(cfg, c, uuid, host))
    ensures forall i :: |s.requests| <= i < |ExecuteDeletion(s, cfg, c, uuid, host).0.requests| ==>
              ExecuteDeletion(s, cfg, c, uuid, host).0.requests[i].head.closure == Some(c)
  {
    EnsuredForClosure(s, cfg, c, uuid, host);
    EnsureWrites(s, cfg, c, uuid, host);
    var (s2, pk) := EnsureRequest(MarkDeleting(s, cfg, c, uuid), cfg, c, host);
    if pk.Some? {
      EraseLocallyEvolves(s2, cfg, c, pk.value, host);
      HeadsStay(s2, EraseLocally(s2, cfg, c, pk.value, host).0);
    }
  }

  lemma EnsuredForClosure(s: State, cfg: Config, c: nat, uuid: string, host: Host)
    requires c < |s.closures|
    ensures var s2 := EnsureRequest(MarkDeleting(s, cfg, c, uuid), cfg, c, host).0;
            forall i :: |s.requests| <= i < |s2.requests| ==> s2.requests[i].head.closure == Some(c)
  {
  }

  lemma HeadsStay(s: State, t: State)
    requires Evolves(s, t)
    ensures forall i :: 0 <= i < |s.requests| ==> t.requests[i].head == s.requests[i].head
  {
    forall i | 0 <= i < |s.requests| ensures t.requests[i].head == s.requests[i].head {
      assert RequestEvolves(s.requests[i], t.requests[i]);
    }
  }

  /** A fully receipted request is not certified by anybody else's step. */
  lemma StaysOpen(s: State, step: Step, i: nat)
    requires Inv(s) && Enabled(s, step) && i < |s.requests| && i < |Apply(s, step).requests|
    requires s.requests[i].Open() && s.requests[i].AllDone()
    requires step.Execute? ==> s.requests[i].head.closure != Some(step.closure)
    ensures !Apply(s, step).requests[i].state.Deleted?
  {
    match step
    case Open(cfg, a, uuid, emitOk) => OpenFrame(s, cfg, a, uuid, emitOk);
    case Execute(cfg, d, uuid, host) => ExecuteFrame(s, cfg, d, uuid, host);
    case Receipt(cfg, correlation, owner, id, counts) => ReceiptFrame(s, cfg, correlation, owner, id, counts, i);
    case Sweep(delivered) => SweepEffect(s, delivered, i);
    case RecordProcessors(_, _, _) =>
    case _ => NoRequestFrame(s, step);
  }

  lemma OwnersAnswer(s: State, pk: nat) returns (steps: seq<Step>)
    requires Inv(s) && Deliverable(s, pk) && s.requests[pk].Open()
    ensures ValidRun(s, steps) && SweepDriven(s, steps)
    ensures pk < |Run(s, steps).requests| && Run(s, steps).requests[pk].state.Deleted?
  {
    var r := s.requests[pk];
    var cfg := SoundConfig(r.head.subjectType);
    SoundConfigCertifies(r.head.subjectType);
    steps := ConfirmAll(r, cfg, r.Unreceipted());
    ReceiptsAlwaysRun(s, steps, pk);
    ReceiptsAreSweepDriven(s, steps);
    DeliveryIsExact(s, steps, pk);
    forall o | o in r.parts ensures r.parts[o].state.Done? || Confirmed(steps, r, o) {
      assert o in r.Unreceipted() || r.parts[o].state.Done?;
    }
  }

  lemma {:induction false} ReceiptsAreSweepDriven(s: State, steps: seq<Step>)
    requires ValidRun(s, steps) && forall i :: 0 <= i < |steps| ==> steps[i].Receipt?
    ensures SweepDriven(s, steps)
    decreases |steps|
  {
    if |steps| != 0 {
      assert forall i :: 0 <= i < |steps[1..]| ==> steps[1..][i] == steps[i + 1];
      ReceiptsAreSweepDriven(Apply(s, steps[0]), steps[1..]);
    }
  }

  // ----- under the sweep no certificate is empty -----

  /** Every un-waived DELETED request has a slot. */
  ghost predicate NoneEmpty(s: State) {
    forall pk :: 0 <= pk < |s.requests| && s.requests[pk].state.Deleted? && !s.requests[pk].waived ==> s.requests[pk].parts.Keys != {}
  }

  lemma NoneEmptyStep(s: State, step: Step)
    requires Inv(s) && Enabled(s, step) && NoneEmpty(s)
    requires step.Execute? ==> step.closure in GraceCandidates(s, |s.closures|)
    ensures NoneEmpty(Apply(s, step))
  {
    var t := Apply(s, step);
    StepKeeps(s, step);
    forall pk: nat | pk < |t.requests| && t.requests[pk].state.Deleted? && !t.requests[pk].waived ensures t.requests[pk].parts.Keys != {} {
      if pk < |s.requests| {
        assert RequestEvolves(s.requests[pk], t.requests[pk]);
      }
      if pk >= |s.requests| || !s.requests[pk].state.Deleted? {
        NewCertificate(s, step, pk);
      }
    }
  }

  /** A certificate written now: by a receipt that filled a slot, or by the execution that
      opened the request from an inventory with a claimant. */
  lemma NewCertificate(s: State, step: Step, pk: nat)
    requires Inv(s) && Enabled(s, step) && (step.Execute? ==> step.closure in GraceCandidates(s, |s.closures|))
    requires pk < |Apply(s, step).requests| && (pk < |s.requests| ==> !s.requests[pk].state.Deleted?)
    requires Apply(s, step).requests[pk].state.Deleted? && !Apply(s, step).requests[pk].waived
    ensures Apply(s, step).requests[pk].parts.Keys != {}
  {
    if pk >= |s.requests| {
      OpenedWithClaimant(s, step, pk);
    } else if step.Receipt? {
      ReceiptNeedsASlot(s, step, pk);
    } else {
      OldIsNotCertified(s, step, pk);
    }
  }

  lemma OpenedWithClaimant(s: State, step: Step, pk: nat)
    requires Inv(s) && Enabled(s, step) && |s.requests| <= pk < |Apply(s, step).requests|
    requires Apply(s, step).requests[pk].state.Deleted? && !Apply(s, step).requests[pk].waived
    ensures Apply(s, step).requests[pk].parts.Keys != {}
  {
    CertifyingInventory(s, step, pk);
    OpeningSnapshot(s, step);
  }

  lemma OldIsNotCertified(s: State, step: Step, pk: nat)
    requires Inv(s) && Enabled(s, step) && (step.Execute? ==> step.closure in GraceCandidates(s, |s.closures|))
    requires !step.Receipt? && pk < |s.requests| && !s.requests[pk].state.Deleted? && pk < |Apply(s, step).requests|
    ensures !(Apply(s, step).requests[pk].state.Deleted? && !Apply(s, step).requests[pk].waived)
  {
    if step.Execute? {
      SweepOpensAnew(s, step, pk);
    } else if Apply(s, step).requests[pk].state.Deleted? && !Apply(s, step).requests[pk].waived {
      CertifyingInventory(s, step, pk);
    }
  }

  lemma ReceiptNeedsASlot(s: State, step: Step, pk: nat)
    requires Inv(s) && step.Receipt? && pk < |s.requests| && !s.requests[pk].state.Deleted?
    requires Apply(s, step).requests[pk].state.Deleted?
    ensures Apply(s, step).requests[pk].parts.Keys != {}
  {
    ReceiptFrame(s, step.cfg, step.correlation, step.owner, step.receiptId, step.counts, pk);
    assert step.owner in s.requests[pk].parts;
    EvolvesRow(s, step, pk);
  }

  /** A closure in its grace has no request yet, so executing it touches no older one. */
  lemma SweepOpensAnew(s: State, step: Step, pk: nat)
    requires Inv(s) && Enabled(s, step) && step.Execute? && step.closure in GraceCandidates(s, |s.closures|) && pk < |s.requests|
    ensures pk < |Apply(s, step).requests| && Apply(s, step).requests[pk] == s.requests[pk]
  {
    assert ClosureSound(s.closures[step.closure]);
    assert s.requests[pk].head.closure != Some(step.closure);
    ExecuteFrame(s, step.cfg, step.closure, step.uuid, step.host);
  }

  lemma EvolvesRow(s: State, step: Step, pk: nat)
    requires Inv(s) && Enabled(s, step) && pk < |s.requests|
    ensures pk < |Apply(s, step).requests| && Apply(s, step).requests[pk].parts.Keys == s.requests[pk].parts.Keys
  {
    StepKeeps(s, step);
    assert RequestEvolves(s.requests[pk], Apply(s, step).requests[pk]);
  }

  lemma {:induction false} NoneEmptyRun(s: State, steps: seq<Step>)
    requires Inv(s) && ValidRun(s, steps) && SweepDriven(s, steps) && NoneEmpty(s)
    ensures NoneEmpty(Run(s, steps))
    decreases |steps|
  {
    if |steps| != 0 {
      StepKeeps(s, steps[0]);
      NoneEmptyStep(s, steps[0]);
      NoneEmptyRun(Apply(s, steps[0]), steps[1..]);
    }
  }

  /** As long as closures are executed only by the grace sweep, every complete erasure, of an
      account or of anything else, rests on at least one receipt. */
  lemma SweptErasureHasReceipts(steps: seq<Step>, pk: nat)
    requires ValidRun(EMPTY, steps) && SweepDriven(EMPTY, steps)
    requires pk < |Run(EMPTY, steps).requests| && Run(EMPTY, steps).requests[pk].Outcome() == Complete
    ensures exists o :: HasReceipt(Run(EMPTY, steps).requests[pk], o)
  {
    var s := Run(EMPTY, steps);
    assert Reachable(s);
    ReachableIsSound(EMPTY) by {
      assert ValidRun(EMPTY, []) && Run(EMPTY, []) == EMPTY;
    }
    NoneEmptyRun(EMPTY, steps);
    CompleteMeans(s.requests[pk]);
    CompleteIsReceipted(s, pk);
    var o :| o in s.requests[pk].parts.Keys;
    assert HasReceipt(s.requests[pk], o);
  }

  // ----- the sweep task is itself a run of executions -----

  /** What executing the closures `todo` leaves alone. */
  ghost predicate OnlyExecuted(s: State, t: State, todo: seq<nat>, uuids: nat -> string) {
    && t.now == s.now && t.holds == s.holds && |t.closures| == |s.closures|
    && (forall c :: 0 <= c < |s.closures| && c !in todo ==> t.closures[c] == s.closures[c])
    && (forall d: nat :: d !in todo ==> Fresh(t, uuids(d)))
  }

  ghost predicate Selectable(s: State, todo: seq<nat>) {
    Distinct(todo) && forall i :: 0 <= i < |todo| ==> todo[i] < |s.closures| && GraceExpired(s, s.closures[todo[i]])
  }

  lemma {:induction false} ExecutionsAreARun(s: State, cfg: Config, todo: seq<nat>, uuids: nat -> string, hosts: nat -> Host)
    returns (steps: seq<Step>)
    requires Inv(s) && FreshDraws(s, uuids) && Selectable(s, todo)
    ensures ValidRun(s, steps) && Run(s, steps) == ExecuteAll(s, cfg, todo, uuids, hosts) && SweepDriven(s, steps)
    ensures OnlyExecuted(s, ExecuteAll(s, cfg, todo, uuids, hosts), todo, uuids)
    decreases |todo|
  {
    if |todo| == 0 {
      steps := [];
    } else {
      var n := |todo| - 1;
      var c := todo[n];
      AllButLast(s, todo);
      var before := ExecutionsAreARun(s, cfg, todo[..n], uuids, hosts);
      LastExecution(s, cfg, todo, uuids, hosts);
      ExtendRun(s, ExecuteAll(s, cfg, todo[..n], uuids, hosts), cfg, before, todo[..n], c, uuids, hosts);
      steps := before + [Execute(cfg, c, uuids(c), hosts(c))];
    }
  }

  lemma AllButLast(s: State, todo: seq<nat>)
    requires Selectable(s, todo) && todo != []
    ensures var n := |todo| - 1;
            && Selectable(s, todo[..n]) && todo[n] !in todo[..n] && todo == todo[..n] + [todo[n]]
            && todo[n] < |s.closures| && GraceExpired(s, s.closures[todo[n]])
  {
  }

  /** The last execution, as an equation. */
  lemma LastExecution(s: State, cfg: Config, todo: seq<nat>, uuids: nat -> string, hosts: nat -> Host)
    requires todo != [] && forall i :: 0 <= i < |todo| ==> todo[i] < |s.closures|
    ensures var c := todo[|todo| - 1];
            ExecuteAll(s, cfg, todo, uuids, hosts) ==
              ExecuteDeletion(ExecuteAll(s, cfg, todo[..|todo| - 1], uuids, hosts), cfg, c, uuids(c), hosts(c)).0
  {
  }

  lemma ExtendRun(s: State, t: State, cfg: Config, before: seq<Step>, done: seq<nat>, c: nat, uuids: nat -> string, hosts: nat -> Host)
    requires Inv(s) && FreshDraws(s, uuids) && c < |s.closures| && GraceExpired(s, s.closures[c]) && c !in done
    requires ValidRun(s, before) && Run(s, before) == t && SweepDriven(s, before) && OnlyExecuted(s, t, done, uuids)
    ensures var steps := before + [Execute(cfg, c, uuids(c), hosts(c))];
            var u := ExecuteDeletion(t, cfg, c, uuids(c), hosts(c)).0;
            ValidRun(s, steps) && Run(s, steps) == u && SweepDriven(s, steps) && OnlyExecuted(s, u, done + [c], uuids)
  {
    RunKeeps(s, before);
    NextExecution(s, t, cfg, c, uuids, hosts);
    var step := Execute(cfg, c, uuids(c), hosts(c));
    OneMoreStep(s, before, step);
    OneMoreExecuted(s, t, Apply(t, step), done, c, uuids);
  }

  lemma OneMoreExecuted(s: State, t: State, u: State, todo: seq<nat>, c: nat, uuids: nat -> string)
    requires OnlyExecuted(s, t, todo, uuids)
    requires u.now == t.now && u.holds == t.holds && |u.closures| == |t.closures|
    requires forall d :: 0 <= d < |t.closures| && d != c ==> u.closures[d] == t.closures[d]
    requires forall d: nat :: d != c && Fresh(t, uuids(d)) ==> Fresh(u, uuids(d))
    ensures OnlyExecuted(s, u, todo + [c], uuids)
  {
    assert forall d: nat :: d in todo + [c] <==> d in todo || d == c;
  }

  /** The sweep task is one enabled execution per selected closure, in order. */
  lemma GraceSweepIsARun(s: State, cfg: Config, uuids: nat -> string, hosts: nat -> Host) returns (steps: seq<Step>)
    requires Inv(s) && FreshDraws(s, uuids)
    ensures ValidRun(s, steps) && SweepDriven(s, steps)
    ensures Run(s, steps) == ProcessExpiredGracePeriods(s, cfg, uuids, hosts)
  {
    var todo := GraceCandidates(s, |s.closures|);
    assert forall i :: 0 <= i < |todo| ==> todo[i] in todo;
    steps := ExecutionsAreARun(s, cfg, todo, uuids, hosts);
  }

  lemma NextExecution(s: State, t: State, cfg: Config, c: nat, uuids: nat -> string, hosts: nat -> Host)
    requires Inv(t) && c < |s.closures| == |t.closures| && t.now == s.now && t.holds == s.holds
    requires t.closures[c] == s.closures[c] && GraceExpired(s, s.closures[c])
    requires Fresh(t, uuids(c)) && forall d: nat :: d != c ==> uuids(d) != uuids(c)
    ensures var step := Execute(cfg, c, uuids(c), hosts(c));
            && Enabled(t, step) && c in GraceCandidates(t, |t.closures|)
            && var u := Apply(t, step);
            && u == ExecuteDeletion(t, cfg, c, uuids(c), hosts(c)).0
            && u.now == t.now && u.holds == t.holds && |u.closures| == |t.closures|
            && (forall d :: 0 <= d < |t.closures| && d != c ==> u.closures[d] == t.closures[d])
            && (forall d: nat :: d != c && Fresh(t, uuids(d)) ==> Fresh(u, uuids(d)))
  {
    assert GraceExpired(t, t.closures[c]);
    ExecuteFrame(t, cfg, c, uuids(c), hosts(c));
    ExecuteDraws(t, cfg, c, uuids(c), hosts(c));
  }

  /** An execution brings at most the drawn uuid into use. */
  lemma ExecuteDraws(s: State, cfg: Config, c: nat, uuid: string, host: Host)
    requires Inv(s) && Enabled(s, Execute(cfg, c, uuid, host))
    ensures forall other :: other != uuid && Fresh(s, other) ==> Fresh(ExecuteDeletion(s, cfg, c, uuid, host).0, other)
  {
    var t := ExecuteDeletion(s, cfg, c, uuid, host).0;
    StepKeeps(s, Execute(cfg, c, uuid, host));
    ExecuteFrame(s, cfg, c, uuid, host);
    MarkedCorrelation(s, cfg, c, uuid, host);
    forall other | other != uuid && Fresh(s, other) ensures Fresh(t, other) {
      forall i | 0 <= i < |t.requests| ensures t.requests[i].head.correlation != other {
        if i < |s.requests| {
          assert RequestEvolves(s.requests[i], t.requests[i]);
        }
      }
      forall d | 0 <= d < |t.closures| ensures t.closures[d].correlation != Some(other) {
      }
    }
  }

  lemma MarkedCorrelation(s: State, cfg: Config, c: nat, uuid: string, host: Host)
    requires Inv(s) && Enabled(s, Execute(cfg, c, uuid, host))
    ensures var t := ExecuteDeletion(s, cfg, c, uuid, host).0;
            var mine := if s.closures[c].correlation.Some? then s.closures[c].correlation else Some(uuid);
            && |t.closures| == |s.closures|
            && (t.closures[c].correlation == s.closures[c].correlation || t.closures[c].correlation == mine)
            && forall i :: |s.requests| <= i < |t.requests| ==> Some(t.requests[i].head.correlation) == mine
  {
    EnsuredCorrelation(s, cfg, c, uuid, host);
    EnsureWrites(s, cfg, c, uuid, host);
    var (s2, pk) := EnsureRequest(MarkDeleting(s, cfg, c, uuid), cfg, c, host);
    if pk.Some? {
      EraseLocallyEvolves(s2, cfg, c, pk.value, host);
      SameCorrelationsAfter(s2, EraseLocally(s2, cfg, c, pk.value, host).0, c);
    }
  }

  lemma EnsuredCorrelation(s: State, cfg: Config, c: nat, uuid: string, host: Host)
    requires c < |s.closures|
    ensures var s2 := EnsureRequest(MarkDeleting(s, cfg, c, uuid), cfg, c, host).0;
            var mine := if s.closures[c].correlation.Some? then s.closures[c].correlation else Some(uuid);
            && s2.closures[c].correlation == mine
            && forall i :: |s.requests| <= i < |s2.requests| ==> Some(s2.requests[i].head.correlation) == mine
  {
  }

  lemma SameCorrelationsAfter(s: State, t: State, c: nat)
    requires Evolves(s, t) && c < |s.closures| && s.closures[c].correlation.Some? && |t.requests| == |s.requests|
    ensures t.closures[c].correlation == s.closures[c].correlation
    ensures forall i :: 0 <= i < |s.requests| ==> t.requests[i].head.correlation == s.requests[i].head.correlation
  {
    assert ClosureEvolves(s.closures[c], t.closures[c]);
    HeadsStay(s, t);
  }

  lemma {:induction false} OneMoreStep(s: State, steps: seq<Step>, step: Step)
    requires ValidRun(s, steps) && SweepDriven(s, steps) && Enabled(Run(s, steps), step)
    requires step.Execute? ==> step.closure in GraceCandidates(Run(s, steps), |Run(s, steps).closures|)
    ensures ValidRun(s, steps + [step]) && Run(s, steps + [step]) == Apply(Run(s, steps), step)
    ensures SweepDriven(s, steps + [step])
    decreases |steps|
  {
    RunThen(s, steps, step);
    var longer := steps + [step];
    if |steps| == 0 {
      assert longer == [step] && longer[1..] == [];
    } else {
      OneMoreStep(Apply(s, steps[0]), steps[1..], step);
      assert longer[1..] == steps[1..] + [step] && longer[0] == steps[0];
    }
  }
}
