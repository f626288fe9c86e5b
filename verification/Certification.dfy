/** What a complete erasure is worth, in every run of the composed machine. */
module Certification {
  import opened Common
  import opened Inventory
  import opened Ledger
  import opened Protocol
  import opened Runs
  import opened Micro
  import opened Invariants
  import opened Frames
  import opened Delivery

  ghost predicate FullyReceipted(r: Request) {
    forall o :: o in r.parts ==> r.parts[o].Receipted()
  }

  /** In every reachable state, complete means a receipt in every slot. */
  lemma CompleteIsReceipted(s: State, pk: nat)
    requires Reachable(s) && pk < |s.requests| && s.requests[pk].Outcome() == Complete
    ensures FullyReceipted(s.requests[pk])
  {
    ReachableIsSound(s);
    CompleteMeans(s.requests[pk]);
    assert RequestSound(s.requests[pk]);
  }

  /** Whatever happens next, a complete erasure stays complete over the very same receipts. */
  lemma CompleteIsPermanent(s: State, steps: seq<Step>, pk: nat)
    requires Reachable(s) && ValidRun(s, steps)
    requires pk < |s.requests| && s.requests[pk].Outcome() == Complete
    ensures pk < |Run(s, steps).requests|
    ensures var r := Run(s, steps).requests[pk];
            r.Outcome() == Complete && r.parts == s.requests[pk].parts && r.completedAt == s.requests[pk].completedAt
  {
    ReachableIsSound(s);
    RunKeeps(s, steps);
    var r, r' := s.requests[pk], Run(s, steps).requests[pk];
    CompleteMeans(r);
    CompleteMeans(r');
    assert RequestEvolves(r, r');
    forall o | o in r.parts ensures r'.parts[o] == r.parts[o] {
      assert PartEvolves(r.parts[o], r'.parts[o]);
    }
    assert r'.parts == r.parts;
  }

  // ----- every claiming owner -----

  /** Whenever this step consults the inventory, the owners claiming `subject` are `names`. */
  ghost predicate Claims(step: Step, subject: string, names: set<string>) {
    step.Open? || step.Receipt? || step.Execute? ==> step.cfg.report.ClaimNames(subject) == names
  }

  lemma SlotNames(report: RegistryReport, subject: string, now: int)
    ensures Slots(report.OwnersFor(subject), now).Keys == report.ClaimNames(subject)
  {
    SlotsOf(report.OwnersFor(subject), now);
    ClaimNamesAreOwnersFor(report, subject);
  }

  /** A step adds at most one request, with one slot per owner claiming its subject. */
  lemma OpeningSnapshot(s: State, step: Step)
    requires Inv(s) && Enabled(s, step) && |s.requests| < |Apply(s, step).requests|
    ensures |Apply(s, step).requests| == |s.requests| + 1 && (step.Open? || step.Execute?)
    ensures var r := Apply(s, step).requests[|s.requests|];
            r.parts.Keys == step.cfg.report.ClaimNames(r.head.subjectType)
  {
    match step
    case Open(cfg, a, uuid, emitOk) =>
      SlotNames(cfg.report, a.subjectType, s.now);
    case Execute(cfg, c, uuid, host) =>
      ExecuteOpens(s, cfg, c, uuid, host);
    case Receipt(cfg, correlation, owner, id, counts) =>
      assert false;
    case Sweep(delivered) =>
      assert false;
    case RecordProcessors(_, _, _) => assert false;
    case _ =>
      NoRequestFrame(s, step);
      assert false;
  }

  lemma ExecuteOpens(s: State, cfg: Config, c: nat, uuid: string, host: Host)
    requires Enabled(s, Execute(cfg, c, uuid, host)) && Linked(s)
    requires |s.requests| < |ExecuteDeletion(s, cfg, c, uuid, host).0.requests|
    ensures var t := ExecuteDeletion(s, cfg, c, uuid, host).0;
            && |t.requests| == |s.requests| + 1
            && t.requests[|s.requests|].parts.Keys == cfg.report.ClaimNames(t.requests[|s.requests|].head.subjectType)
  {
    EnsureFrame(s, cfg, c, uuid, host);
    EnsureWrites(s, cfg, c, uuid, host);
    var (s2, pk) := EnsureRequest(MarkDeleting(s, cfg, c, uuid), cfg, c, host);
    SlotNames(cfg.report, SUBJECT_ACCOUNT, s2.now);
    if pk.Some? {
      EraseLocallyFrame(s2, cfg, c, pk.value, host);
      EraseLocallyEvolves(s2, cfg, c, pk.value, host);
      var t := EraseLocally(s2, cfg, c, pk.value, host).0;
      assert RequestEvolves(s2.requests[|s.requests|], t.requests[|s.requests|]);
    }
  }

  /** A step that certifies without a waiver read an inventory in which somebody claims the subject. */
  lemma CertifyingInventory(s: State, step: Step, pk: nat)
    requires Inv(s) && Enabled(s, step) && pk < |Apply(s, step).requests|
    requires pk < |s.requests| ==> !s.requests[pk].state.Deleted?
    requires Apply(s, step).requests[pk].state.Deleted? && !Apply(s, step).requests[pk].waived
    ensures step.Receipt? || step.Execute?
    ensures step.cfg.report.ClaimNames(Apply(s, step).requests[pk].head.subjectType) != {}
  {
    var t := Apply(s, step);
    match step
    case Receipt(cfg, correlation, owner, id, counts) =>
      ReceiptFrame(s, cfg, correlation, owner, id, counts, pk);
      NoBlockers(cfg, RecordReceipt(s, pk, owner, id, counts).requests[pk]);
      ClaimNamesAreOwnersFor(cfg.report, s.requests[pk].head.subjectType);
    case Execute(cfg, c, uuid, host) =>
      ExecuteCertifies(s, cfg, c, uuid, host, pk);
    case Open(cfg, a, uuid, emitOk) =>
      OpenFrame(s, cfg, a, uuid, emitOk);
      assert false;
    case Sweep(delivered) =>
      SweepEffect(s, delivered, pk);
      assert false;
    case RecordProcessors(_, _, _) => assert false;
    case _ =>
      NoRequestFrame(s, step);
      assert false;
  }

  lemma ExecuteCertifies(s: State, cfg: Config, c: nat, uuid: string, host: Host, pk: nat)
    requires Enabled(s, Execute(cfg, c, uuid, host)) && Linked(s)
    requires pk < |s.requests| ==> !s.requests[pk].state.Deleted?
    requires var t := ExecuteDeletion(s, cfg, c, uuid, host).0;
             pk < |t.requests| && t.requests[pk].state.Deleted? && !t.requests[pk].waived
    ensures cfg.report.ClaimNames(ExecuteDeletion(s, cfg, c, uuid, host).0.requests[pk].head.subjectType) != {}
  {
    EnsureFrame(s, cfg, c, uuid, host);
    EnsureWrites(s, cfg, c, uuid, host);
    var (s2, mine) := EnsureRequest(MarkDeleting(s, cfg, c, uuid), cfg, c, host);
    assert pk < |s.requests| ==> s2.requests[pk] == s2.requests[..|s.requests|][pk];
    if mine.Some? && !IsHeld(s, s.closures[c].head.user) {
      EraseLocallyFrame(s2, cfg, c, mine.value, host);
      LocalCertifies(s2, cfg, c, mine.value, host);
      ClaimNamesAreOwnersFor(cfg.report, s2.requests[mine.value].head.subjectType);
    }
  }

  lemma LocalCertifies(s: State, cfg: Config, c: nat, pk: nat, host: Host)
    requires c < |s.closures| && pk < |s.requests| && !s.requests[pk].state.Deleted?
    requires var t := EraseLocally(s, cfg, c, pk, host).0; |t.requests| == |s.requests|
    ensures var t := EraseLocally(s, cfg, c, pk, host).0;
            && t.requests[pk].head == s.requests[pk].head
            && (t.requests[pk].state.Deleted? && !t.requests[pk].waived ==> cfg.report.OwnersFor(s.requests[pk].head.subjectType) != [])
  {
    var failed := FailedSections(cfg.providers, host);
    var s1 := WithParts(s, pk, LocalReceipts(s.requests[pk], cfg.report, failed, s.now));
    NoBlockers(cfg, s1.requests[pk]);
  }

  /** If the owners claiming the subject have not changed since the step that opened the
      request, a complete erasure has a receipt of every one of them, and there is one. */
  lemma EveryClaimingOwner(s: State, opening: Step, rest: seq<Step>, names: set<string>)
    requires Inv(s) && Enabled(s, opening) && |s.requests| < |Apply(s, opening).requests|
    requires ValidRun(Apply(s, opening), rest)
    requires var subject := Apply(s, opening).requests[|s.requests|].head.subjectType;
             Claims(opening, subject, names) && forall i :: 0 <= i < |rest| ==> Claims(rest[i], subject, names)
    requires var t := Run(Apply(s, opening), rest);
             |s.requests| < |t.requests| && t.requests[|s.requests|].Outcome() == Complete
    ensures var r := Run(Apply(s, opening), rest).requests[|s.requests|];
            names != {} && r.parts.Keys == names && FullyReceipted(r)
  {
    var pk := |s.requests|;
    var s1 := Apply(s, opening);
    var t := Run(s1, rest);
    StepKeeps(s, opening);
    RunKeeps(s1, rest);
    OpeningSnapshot(s, opening);
    assert RequestEvolves(s1.requests[pk], t.requests[pk]);
    CompleteMeans(t.requests[pk]);
    assert RequestSound(t.requests[pk]);
    if s1.requests[pk].state.Deleted? {
      CertifyingInventory(s, opening, pk);
    } else {
      SomeStepCertifies(s1, rest, pk, names);
    }
  }

  /** Exactly whose receipts a complete erasure carries, decided when it is opened: those of
      the owners the opening step's inventory lists as claiming the subject. A set of owners
      has confirmed if and only if it lies within them, and anybody has if and only if there
      was a claimant. Whatever the inventory becomes later plays no part. */
  lemma ReceiptsIff(s: State, opening: Step, rest: seq<Step>)
    requires Inv(s) && Enabled(s, opening) && |s.requests| < |Apply(s, opening).requests|
    requires ValidRun(Apply(s, opening), rest)
    requires var t := Run(Apply(s, opening), rest);
             |s.requests| < |t.requests| && t.requests[|s.requests|].Outcome() == Complete
    ensures opening.Open? || opening.Execute?
    ensures var r := Run(Apply(s, opening), rest).requests[|s.requests|];
            var claimants := opening.cfg.report.ClaimNames(r.head.subjectType);
            && ((exists o :: HasReceipt(r, o)) <==> claimants != {})
            && (forall names: set<string> :: (forall o :: o in names ==> HasReceipt(r, o)) <==> names <= claimants)
  {
    var pk := |s.requests|;
    var s1 := Apply(s, opening);
    var r := Run(s1, rest).requests[pk];
    StepKeeps(s, opening);
    RunKeeps(s1, rest);
    OpeningSnapshot(s, opening);
    assert RequestEvolves(s1.requests[pk], r);
    CompleteMeans(r);
    assert RequestSound(r);
    var claimants := opening.cfg.report.ClaimNames(r.head.subjectType);
    assert forall o :: HasReceipt(r, o) <==> o in claimants;
  }

  ghost predicate HasReceipt(r: Request, owner: string) {
    owner in r.parts && r.parts[owner].Receipted()
  }

  lemma {:induction false} SomeStepCertifies(s: State, steps: seq<Step>, pk: nat, names: set<string>)
    requires Inv(s) && ValidRun(s, steps) && pk < |s.requests| && !s.requests[pk].state.Deleted?
    requires forall i :: 0 <= i < |steps| ==> Claims(steps[i], s.requests[pk].head.subjectType, names)
    requires pk < |Run(s, steps).requests| && Run(s, steps).requests[pk].state.Deleted? && !Run(s, steps).requests[pk].waived
    ensures names != {}
    decreases |steps|
  {
    var t := Apply(s, steps[0]);
    StepKeeps(s, steps[0]);
    assert RequestEvolves(s.requests[pk], t.requests[pk]);
    if t.requests[pk].state.Deleted? {
      RunKeeps(t, steps[1..]);
      assert RequestEvolves(t.requests[pk], Run(t, steps[1..]).requests[pk]);
      CertifyingInventory(s, steps[0], pk);
    } else {
      assert forall i :: 0 <= i < |steps[1..]| ==> steps[1..][i] == steps[i + 1];
      SomeStepCertifies(t, steps[1..], pk, names);
    }
  }

  // ----- what the snapshot does not protect -----

  /** Without a closure, a complete erasure always rests on at least one receipt. */
  lemma EntityErasureHasReceipts(s: State, pk: nat)
    requires Reachable(s) && pk < |s.requests| && s.requests[pk].Outcome() == Complete
    requires s.requests[pk].head.closure.None?
    ensures exists o :: o in s.requests[pk].parts && s.requests[pk].parts[o].Receipted()
  {
    CompleteIsReceipted(s, pk);
    ReachableIsSound(s);
    var r := s.requests[pk];
    CompleteMeans(r);
    assert RequestSound(r);
    assert r.parts.Keys != {};
    var o :| o in r.parts.Keys;
    assert r.parts[o].Receipted();
  }

  /** An open entity erasure whose slots are all DONE: its last receipt met an inventory
      that could not certify, and nothing looks again. */
  ghost predicate Stranded(r: Request) {
    r.head.closure.None? && r.Open() && r.AllDone()
  }

  lemma {:induction false} StrandedForEver(s: State, steps: seq<Step>, pk: nat)
    requires Inv(s) && ValidRun(s, steps) && pk < |s.requests| && Stranded(s.requests[pk])
    ensures pk < |Run(s, steps).requests| && Stranded(Run(s, steps).requests[pk])
    decreases |steps|
  {
    if |steps| != 0 {
      var r := s.requests[pk];
      StepKeeps(s, steps[0]);
      assert Silent(r, s.now) == {};
      if steps[0].Receipt? {
        var Receipt(cfg, correlation, owner, id, counts) := steps[0];
        ReceiptFrame(s, cfg, correlation, owner, id, counts, pk);
      } else {
        EntityFrame(s, steps[0], pk);
      }
      StrandedForEver(Apply(s, steps[0]), steps[1..], pk);
    }
  }

  /** Some continuation of the machine ends with the request complete. */
  ghost predicate CanStillComplete(s: State, pk: nat) {
    exists steps :: ValidRun(s, steps) && pk < |Run(s, steps).requests| && Run(s, steps).requests[pk].Outcome() == Complete
  }

  /** The exact line between waiting and being stuck: an open entity erasure can still be
      completed if and only if some slot is not DONE. */
  lemma CompletableIff(s: State, pk: nat)
    requires Inv(s) && pk < |s.requests| && s.requests[pk].head.closure.None? && s.requests[pk].Open()
    ensures CanStillComplete(s, pk) <==> !s.requests[pk].AllDone()
  {
    var r := s.requests[pk];
    if CanStillComplete(s, pk) && r.AllDone() {
      var steps :| ValidRun(s, steps) && pk < |Run(s, steps).requests| && Run(s, steps).requests[pk].Outcome() == Complete;
      StrandedForEver(s, steps, pk);
      CompleteMeans(Run(s, steps).requests[pk]);
      assert false;
    }
    if !r.AllDone() {
      var steps := ConfirmAll(r, SoundConfig(r.head.subjectType), r.Unreceipted());
      assert RequestSound(r);
      SoundConfigCertifies(r.head.subjectType);
      ReceiptsAlwaysRun(s, steps, pk);
      DeliveryIsExact(s, steps, pk);
      forall o | o in r.parts ensures r.parts[o].state.Done? || Confirmed(steps, r, o) {
        if !r.parts[o].state.Done? {
          assert o in r.Unreceipted();
        }
      }
      CompleteMeans(Run(s, steps).requests[pk]);
    }
  }

  // ----- a certificate over nothing -----

  const NOBODY := Config(RegistryReport("", [], [], {}, true), [SUBJECT_ACCOUNT], 30, false, false, [], [])

  function WillingHost(): Host {
    Host({}, {}, (u: User) => StrategyOutcome(None, false), true, true)
  }

  /** One closure in its grace period, and nothing else. */
  ghost predicate OneGrace(s: State) {
    && |s.closures| == 1 && s.closures[0].status.Grace? && s.closures[0].correlation.None?
    && s.requests == [] && s.holds == [] && s.users == map[]
  }

  /** The closure has done its part; its erasure was opened with no slots. */
  ghost predicate OneEmptyErasure(s: State) {
    && |s.closures| == 1 && s.closures[0].ReadyToCertify() && s.closures[0].correlation == Some("u")
    && |s.requests| == 1 && s.requests[0].Open() && s.requests[0].parts == map[]
    && s.requests[0].head.correlation == "u" && s.requests[0].head.closure == Some(0)
    && s.requests[0].head.subjectType == SUBJECT_ACCOUNT && s.holds == [] && s.users == map[]
  }

  lemma GraceBegins()
    ensures OneGrace(Apply(EMPTY, Initiate(NOBODY, 7, Manual, Revokes, true)))
  {
    assert Apply(EMPTY, Initiate(NOBODY, 7, Manual, Revokes, true)).closures == [NewClosure(EMPTY, NOBODY, 7, Manual)];
  }

  lemma GraceEnds(s: State)
    requires OneGrace(s)
    ensures OneGrace(Apply(s, Tick(GRACE_PERIOD)))
  {
  }

  lemma FourSteps(s: State, a: Step, b: Step, c: Step, d: Step)
    requires Enabled(s, a) && Enabled(Apply(s, a), b) && Enabled(Apply(Apply(s, a), b), c)
    requires Enabled(Apply(Apply(Apply(s, a), b), c), d)
    ensures ValidRun(s, [a, b, c, d]) && Run(s, [a, b, c, d]) == Apply(Apply(Apply(Apply(s, a), b), c), d)
  {
    ThreeSteps(s, a, b, c);
    RunThen(s, [a, b, c], d);
    assert [a, b, c] + [d] == [a, b, c, d];
  }

  lemma ThreeSteps(s: State, a: Step, b: Step, c: Step)
    requires Enabled(s, a) && Enabled(Apply(s, a), b) && Enabled(Apply(Apply(s, a), b), c)
    ensures ValidRun(s, [a, b, c]) && Run(s, [a, b, c]) == Apply(Apply(Apply(s, a), b), c)
  {
    RunThen(s, [], a);
    RunThen(s, [] + [a], b);
    RunThen(s, [] + [a] + [b], c);
    assert [] + [a] + [b] + [c] == [a, b, c];
  }

  /** A closure executed when its grace ends, under an empty inventory, and executed again
      after owners were declared: its erasure ends complete without a single receipt. The
      second execution is one the grace sweep does not make. */
  lemma CompleteWithoutReceipts() returns (steps: seq<Step>)
    ensures ValidRun(EMPTY, steps)
    ensures var s := Run(EMPTY, steps);
            |s.requests| == 1 && s.requests[0].Outcome() == Complete && s.requests[0].parts == map[]
  {
    var host := WillingHost();
    var sound := SoundConfig(SUBJECT_ACCOUNT);
    var initiate, wait := Initiate(NOBODY, 7, Manual, Revokes, true), Tick(GRACE_PERIOD);
    var first, second := Execute(NOBODY, 0, "u", host), Execute(sound, 0, "v", host);
    GraceBegins();
    var s := Apply(Apply(EMPTY, initiate), wait);
    GraceEnds(Apply(EMPTY, initiate));
    FirstExecution(s, host);
    SecondExecution(Apply(s, first), sound, host);
    FourSteps(EMPTY, initiate, wait, first, second);
    steps := [initiate, wait, first, second];
    CompleteMeans(Run(EMPTY, steps).requests[0]);
  }

  lemma FirstExecution(s: State, host: Host)
    requires OneGrace(s) && host == WillingHost()
    ensures Enabled(s, Execute(NOBODY, 0, "u", host))
    ensures OneEmptyErasure(ExecuteDeletion(s, NOBODY, 0, "u", host).0)
  {
    var s1 := MarkDeleting(s, NOBODY, 0, "u");
    var (s2, pk) := EnsureRequest(s1, NOBODY, 0, host);
    assert pk == Some(0) && s2.requests == [NewRequest(s1, NOBODY, AccountErasure(s1.closures[0], 0), "u")];
    assert NOBODY.report.OwnersFor(SUBJECT_ACCOUNT) == [];
    assert FailedSections(NOBODY.providers, host) == [];
    assert LocalReceipts(s2.requests[0], NOBODY.report, [], s2.now) == map[];
    assert Blockers(NOBODY, s2.requests[0]) != [] by {
      assert NOBODY.report.Problems()[0] == Unconfigured;
    }
  }

  lemma SecondExecution(s: State, cfg: Config, host: Host)
    requires OneEmptyErasure(s)
    requires cfg == SoundConfig(SUBJECT_ACCOUNT) && host == WillingHost()
    ensures Enabled(s, Execute(cfg, 0, "v", host))
    ensures var t := ExecuteDeletion(s, cfg, 0, "v", host).0;
            |t.requests| == 1 && t.requests[0].state.Deleted? && !t.requests[0].waived && t.requests[0].parts == map[]
  {
    SoundConfigCertifies(SUBJECT_ACCOUNT);
    var s1 := MarkDeleting(s, cfg, 0, "v");
    assert EnsureRequest(s1, cfg, 0, host) == (s1, Some(0));
    assert FailedSections(cfg.providers, host) == [];
    var parts := LocalReceipts(s1.requests[0], cfg.report, [], s1.now);
    assert parts == map[];
    NoBlockers(cfg, s1.requests[0].(parts := parts));
  }
}
