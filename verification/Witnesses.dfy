/** Concrete runs from the empty tables into the situations the general theorems describe:
    each is short, and none needs a fault outside the inputs the code handles. */
module Witnesses {
  import opened Common
  import opened Inventory
  import opened Subprocessors
  import opened Ledger
  import opened Protocol
  import opened Runs
  import opened Invariants
  import opened Frames
  import opened Delivery
  import opened Certification
  import opened Accounts
  import opened Sweeps
  import opened Restores
  import opened Windows

  const FILE := "file"
  const OWNER := "files"

  /** One remote owner claims files and has sixty days to answer. */
  const FILES := Config(RegistryReport("", [DataOwner(OWNER, Remote, PATIENCE, [FILE])], [], {}, false), [FILE], 30, false, false, [], [])

  const PATIENCE := 60 * 86400

  const ERASE_FILE := OpenArgs(FILE, "1", None, None, ByUser, None, None, None, None, None, "", "")

  const SLOT := Part(Pending, Remote, "", None, map[], PATIENCE)

  lemma FilesAreClaimed()
    ensures FILES.report.OwnersFor(FILE) == [DataOwner(OWNER, Remote, PATIENCE, [FILE])]
    ensures Slots(FILES.report.OwnersFor(FILE), 0) == map[OWNER := SLOT]
    ensures CanCertify(FILES, FILE)
  {
    var owners := FILES.report.owners;
    assert owners[..0] == [];
    assert Claiming([], FILE) == [];
    assert owners[0].Claims(FILE);
    var claiming := FILES.report.OwnersFor(FILE);
    assert claiming == [owners[0]];
    assert claiming[..0] == [];
    assert Slots([], 0) == map[];
  }

  /** The tables after one file erasure was opened at time zero. */
  ghost predicate OneFile(s: State) {
    && s.requests == [NewRequest(EMPTY, FILES, ERASE_FILE, "u")] && s.requests[0].parts == map[OWNER := SLOT]
    && s.now == 0 && s.closures == []
  }

  lemma OpenOneFile() returns (step: Step)
    ensures step == Open(FILES, ERASE_FILE, "u", true) && Enabled(EMPTY, step) && OneFile(Apply(EMPTY, step)) && Inv(Apply(EMPTY, step))
  {
    step := Open(FILES, ERASE_FILE, "u", true);
    FilesAreClaimed();
    EmptyIsSound();
    StepKeeps(EMPTY, step);
  }

  lemma TwoSteps(s: State, a: Step, b: Step)
    requires Enabled(s, a) && Enabled(Apply(s, a), b)
    ensures ValidRun(s, [a, b]) && Run(s, [a, b]) == Apply(Apply(s, a), b)
  {
    RunThen(s, [], a);
    RunThen(s, [] + [a], b);
    assert [] + [a] + [b] == [a, b];
  }

  /** The last receipt arrives while the inventory is broken: stranded. */
  lemma ReceiptMeetsBrokenInventory() returns (steps: seq<Step>)
    ensures ValidRun(EMPTY, steps) && |steps| == 2
    ensures |Run(EMPTY, steps).requests| == 1 && Stranded(Run(EMPTY, steps).requests[0])
  {
    var opening := OpenOneFile();
    var s := Apply(EMPTY, opening);
    var receipt := Receipt(NOBODY, "u", OWNER, "", map[]);
    steps := [opening, receipt];
    TwoSteps(EMPTY, opening, receipt);
    assert Awaits(s.requests[0], OWNER);
    FoundIsUnique(s, 0, "u");
    var filled := RecordReceipt(s, 0, OWNER, "", map[]);
    assert filled.requests[0].AllDone();
    assert NOBODY.report.Problems()[0] == Unconfigured;
    assert Blockers(NOBODY, filled.requests[0])[0] == RegistryProblem(Unconfigured);
  }

  /** A sweep whose only emit fails: the slot is TIMEOUT, the request is not, and no
      continuation makes it. */
  lemma SweepFailsOnce() returns (steps: seq<Step>)
    ensures ValidRun(EMPTY, steps) && |steps| == 3
    ensures var s := Run(EMPTY, steps);
            |s.requests| == 1 && s.requests[0].Open() && !Accounted(s.requests[0]) && !CanTimeOut(s, 0)
  {
    var opening := OpenOneFile();
    var wait := Tick(PATIENCE);
    var s := Apply(Apply(EMPTY, opening), wait);
    StepKeeps(Apply(EMPTY, opening), wait);
    steps := [opening, wait, Sweep(0)];
    ThreeSteps(EMPTY, opening, wait, Sweep(0));
    OverdueIsLost(s);
  }

  lemma OverdueIsLost(s: State)
    requires Inv(s) && |s.requests| == 1 && s.requests[0].Open() && s.requests[0].parts == map[OWNER := SLOT] && PATIENCE <= s.now
    ensures var t := Apply(s, Sweep(0));
            |t.requests| == 1 && t.requests[0].Open() && !Accounted(t.requests[0]) && !CanTimeOut(t, 0)
  {
    assert s.requests[0].parts[OWNER] == SLOT && OWNER in Silent(s.requests[0], s.now);
    assert 0 in LosingRequests(s.requests, s.now);
    LostTimeout(s, 0, 0);
  }

  /** No processor is declared and the owner answers after the deadline: the date published
      as "erased everywhere" lies before the erasure was complete. */
  lemma LateWithoutProcessors() returns (steps: seq<Step>)
    ensures ValidRun(EMPTY, steps) && |Run(EMPTY, steps).requests| == 1
    ensures var r := Run(EMPTY, steps).requests[0];
            && r.Outcome() == Complete && r.completedAt.Some?
            && forall latest :: IsLatest(latest, r.head.dueAt, r.obligations) ==> latest < r.completedAt.value
  {
    var opening := OpenOneFile();
    var s := Apply(EMPTY, opening);
    var wait, receipt := Tick(31 * DAY), Receipt(FILES, "u", OWNER, "", map[]);
    steps := [opening, wait, receipt];
    StepKeeps(s, wait);
    LateConfirmation(Apply(s, wait));
    ThreeSteps(EMPTY, opening, wait, receipt);
  }

  lemma LateConfirmation(s: State)
    requires Inv(s) && |s.requests| == 1 && AwaitsOwner(s.requests[0]) && s.requests[0].head.correlation == "u"
    requires s.requests[0].obligations == map[] && s.requests[0].head.dueAt < s.now
    ensures var t := Apply(s, Receipt(FILES, "u", OWNER, "", map[]));
            && |t.requests| == 1 && t.requests[0].Outcome() == Complete && t.requests[0].completedAt == Some(s.now)
            && forall latest :: IsLatest(latest, t.requests[0].head.dueAt, t.requests[0].obligations) ==> latest < s.now
  {
    OwnerConfirms(s, 0);
  }

  const FILES_SHARED := FILES.(processors := [BareName("cdn")])

  /** The processor is declared, but the owner recorded it when the request was opened: the
      recording at completion does not move its date, and again the published date lies
      before the completion. */
  lemma LateWithEarlyProcessor() returns (steps: seq<Step>)
    ensures ValidRun(EMPTY, steps) && |Run(EMPTY, steps).requests| == 1
    ensures var r := Run(EMPTY, steps).requests[0];
            && r.Outcome() == Complete && r.completedAt.Some? && "cdn" in r.obligations
            && forall latest :: IsLatest(latest, r.head.dueAt, r.obligations) ==> latest < r.completedAt.value
  {
    var opening := OpenOneFile();
    var record, wait := RecordProcessors(FILES_SHARED, 0, {}), Tick(31 * DAY);
    var receipt := Receipt(FILES_SHARED, "u", OWNER, "", map[]);
    var s0 := Apply(EMPTY, opening);
    RecordedEarly(s0);
    StepKeeps(s0, record);
    StepKeeps(Apply(s0, record), wait);
    LateAnyway(Apply(Apply(s0, record), wait));
    FourSteps(EMPTY, opening, record, wait, receipt);
    steps := [opening, record, wait, receipt];
  }

  lemma SharedPairs()
    ensures DeclaredPairs(FILES_SHARED.processors, {}) == [("cdn", 0)]
  {
    assert FILES_SHARED.processors[..0] == [];
    assert DeclaredPairs([], {}) == [];
  }

  lemma RecordedEarly(s: State)
    requires OneFile(s)
    ensures Apply(s, RecordProcessors(FILES_SHARED, 0, {})) ==
              s.(requests := [s.requests[0].(obligations := map["cdn" := NewObligation(0, 0, 0)])])
  {
    SharedPairs();
    assert [("cdn", 0)][..0] == [];
    assert Recorded(map[], [], 0, 0) == map[];
    assert Recorded(map[], [("cdn", 0)], 0, 0) == map["cdn" := NewObligation(0, 0, 0)];
  }

  lemma LateAnyway(s: State)
    requires Inv(s) && |s.requests| == 1 && AwaitsOwner(s.requests[0]) && s.requests[0].head.correlation == "u"
    requires s.requests[0].obligations == map["cdn" := NewObligation(0, 0, 0)] && s.requests[0].head.dueAt < s.now && 0 < s.now
    ensures var t := Apply(s, Receipt(FILES_SHARED, "u", OWNER, "", map[]));
            && |t.requests| == 1 && t.requests[0].Outcome() == Complete && t.requests[0].completedAt == Some(s.now)
            && "cdn" in t.requests[0].obligations
            && forall latest :: IsLatest(latest, t.requests[0].head.dueAt, t.requests[0].obligations) ==> latest < s.now
  {
    ConfirmationFrame(s, 0, FILES_SHARED);
    ConfirmationVerdict(s, 0, FILES_SHARED);
    SharedPairs();
    AllPresent(s.requests[0].obligations, [("cdn", 0)], s.now, s.now);
  }

  /** A provider is registered that nobody declared. */
  const LOCAL := Config(RegistryReport("", [], [], {"profile"}, true), [SUBJECT_ACCOUNT], 30, false, false, [], ["profile"])

  function StubbornHost(): Host {
    Host({"profile"}, {}, (u: User) => StrategyOutcome(None, false), true, true)
  }

  /** The grace sweep executes the closure when its time has come and a provider raises once:
      the closure is DELETING with its local work undone, and no grace sweep ever looks at it
      again. */
  lemma ProviderRaisesOnce() returns (steps: seq<Step>)
    ensures ValidRun(EMPTY, steps) && SweepDriven(EMPTY, steps)
    ensures |Run(EMPTY, steps).closures| == 1 && HalfErased(Run(EMPTY, steps).closures[0]) && !CanStillClose(Run(EMPTY, steps), 0)
  {
    var host := StubbornHost();
    var initiate, wait := Initiate(LOCAL, 7, Manual, Revokes, true), Tick(GRACE_PERIOD);
    var execute := Execute(LOCAL, 0, "u", host);
    var s := GraceIsOver(initiate, wait);
    ExpiredIsSelected(s);
    ProfileFails(host);
    StopsHalfWay(s, LOCAL, 0, "u", host);
    ThreeSweepDriven(EMPTY, initiate, wait, execute);
    steps := [initiate, wait, execute];
    StepKeeps(s, execute);
    ClosableIff(Apply(s, execute), 0);
  }

  /** One closure, initiated at time zero, whose grace has ended. */
  ghost predicate OneExpired(s: State) {
    s.now == GRACE_PERIOD && s.holds == [] && s.requests == [] && s.closures == [NewClosure(EMPTY, LOCAL, 7, Manual)]
  }

  lemma GraceIsOver(initiate: Step, wait: Step) returns (s: State)
    requires initiate == Initiate(LOCAL, 7, Manual, Revokes, true) && wait == Tick(GRACE_PERIOD)
    ensures s == Apply(Apply(EMPTY, initiate), wait) && Inv(s) && OneExpired(s)
  {
    var t := Apply(EMPTY, initiate);
    s := Apply(t, wait);
    EmptyIsSound();
    StepKeeps(EMPTY, initiate);
    StepKeeps(t, wait);
    assert t.closures == [NewClosure(EMPTY, LOCAL, 7, Manual)];
  }

  lemma EmptyIsSound()
    ensures Inv(EMPTY)
  {
  }

  lemma ExpiredIsSelected(s: State)
    requires OneExpired(s)
    ensures 0 in GraceCandidates(s, |s.closures|) && Enabled(s, Execute(LOCAL, 0, "u", StubbornHost())) && !IsHeld(s, 7)
  {
    assert GraceExpired(s, s.closures[0]);
  }

  lemma ThreeSweepDriven(s: State, a: Step, b: Step, c: Step)
    requires Enabled(s, a) && Enabled(Apply(s, a), b) && Enabled(Apply(Apply(s, a), b), c)
    requires !a.Execute? && !b.Execute?
    requires c.Execute? ==> c.closure in GraceCandidates(Apply(Apply(s, a), b), |Apply(Apply(s, a), b).closures|)
    ensures ValidRun(s, [a, b, c]) && SweepDriven(s, [a, b, c]) && Run(s, [a, b, c]) == Apply(Apply(Apply(s, a), b), c)
  {
    OneMoreStep(s, [], a);
    OneMoreStep(s, [] + [a], b);
    OneMoreStep(s, [] + [a] + [b], c);
    assert [] + [a] + [b] + [c] == [a, b, c];
  }

  lemma ProfileFails(host: Host)
    requires host == StubbornHost()
    ensures FailedSections(["profile"], host) == ["profile"]
  {
    assert ["profile"][..0] == [];
    assert AnonymizeFailures([], host) == [];
    assert AnonymizeFailures(["profile"], host) == ["profile"];
  }

  /** Whatever else happens, a failing provider leaves the closure half-way. */
  lemma StopsHalfWay(s: State, cfg: Config, c: nat, uuid: string, host: Host)
    requires c < |s.closures| && !s.closures[c].localErasureDone && !IsHeld(s, s.closures[c].head.user)
    requires FailedSections(cfg.providers, host) != []
    ensures var t := ExecuteDeletion(s, cfg, c, uuid, host).0; |t.closures| == |s.closures| && HalfErased(t.closures[c])
  {
    var s1 := MarkDeleting(s, cfg, c, uuid);
    assert EnsureRequest(s1, cfg, c, host).0.closures == s1.closures;
  }

  // ----- the restore command, twice -----

  /** The single candidate is cloned and nothing else happens. */
  lemma OneCandidate(s: State, cfg: Config, restoredFrom: int, uuids: nat -> string, emits: nat -> bool)
    requires |s.requests| == 1 && Undone(s.requests[0], restoredFrom - SLACK) && !HasClone(s.requests, 0)
    ensures RequeueAfterRestore(s, cfg, restoredFrom, false, uuids, emits) ==
              RequeueOne(Requeue(s, 0, 0, false), cfg, 0, restoredFrom, uuids(0), emits(0))
  {
    assert RequeueCandidates(s.requests, restoredFrom - SLACK, 0) == [];
    assert RequeueCandidates(s.requests, restoredFrom - SLACK, 1) == [0];
    assert [0][..0] == [];
    assert RequeueAll(s, cfg, [], restoredFrom, uuids, emits) == Requeue(s, 0, 0, false);
  }

  /** An open file erasure whose owner has not answered. */
  ghost predicate AwaitsOwner(r: Request) {
    && r.head.subjectType == FILE && r.head.closure.None? && r.state.Erasing? && !r.waived
    && r.parts == map[OWNER := SLOT]
  }

  /** Its owner's confirmation completes it on the spot. */
  lemma OwnerConfirms(s: State, pk: nat)
    requires Inv(s) && pk < |s.requests| && AwaitsOwner(s.requests[pk])
    ensures var t := Apply(s, Receipt(FILES, s.requests[pk].head.correlation, OWNER, "", map[]));
            && Inv(t) && t.now == s.now && t.closures == s.closures && |t.requests| == |s.requests|
            && (forall i :: 0 <= i < |s.requests| ==> t.requests[i].head == s.requests[i].head)
            && t.requests[pk].Outcome() == Complete && t.requests[pk].completedAt == Some(s.now)
            && t.requests[pk].obligations == s.requests[pk].obligations
  {
    ConfirmationFrame(s, pk, FILES);
    ConfirmationVerdict(s, pk, FILES);
    assert DeclaredPairs([], {}) == [];
  }

  lemma ConfirmationFrame(s: State, pk: nat, cfg: Config)
    requires Inv(s) && pk < |s.requests| && AwaitsOwner(s.requests[pk])
    ensures var t := Apply(s, Receipt(cfg, s.requests[pk].head.correlation, OWNER, "", map[]));
            && Inv(t) && t.now == s.now && t.closures == s.closures && |t.requests| == |s.requests|
            && forall i :: 0 <= i < |s.requests| ==> t.requests[i].head == s.requests[i].head
  {
    StepKeeps(s, Receipt(cfg, s.requests[pk].head.correlation, OWNER, "", map[]));
    FoundIsUnique(s, pk, s.requests[pk].head.correlation);
  }

  lemma ConfirmationVerdict(s: State, pk: nat, cfg: Config)
    requires Inv(s) && pk < |s.requests| && AwaitsOwner(s.requests[pk])
    requires cfg.report == FILES.report && cfg.receiptsHatch == FILES.receiptsHatch
    ensures var r := Apply(s, Receipt(cfg, s.requests[pk].head.correlation, OWNER, "", map[])).requests[pk];
            && r.Outcome() == Complete && r.completedAt == Some(s.now)
            && r.obligations == Recorded(s.requests[pk].obligations, DeclaredPairs(cfg.processors, {}), s.now, s.now)
  {
    var step := Receipt(cfg, s.requests[pk].head.correlation, OWNER, "", map[]);
    FilesAreClaimed();
    assert OWNER in s.requests[pk].parts && SLOT.state.Pending?;
    StepDelivers(s, step, pk);
    CompletionRecords(s, step, pk);
    CompleteMeans(Apply(s, step).requests[pk]);
  }

  function Draws(letter: char): nat -> string {
    (d: nat) => seq(d + 2, _ => letter)
  }

  lemma DrawsAreFresh(s: State, letter: char)
    requires s.closures == []
    requires forall i :: 0 <= i < |s.requests| ==>
               var c := s.requests[i].head.correlation; |c| > 0 && c[0] != letter
    ensures FreshDraws(s, Draws(letter))
  {
    forall c: nat, d: nat | c != d ensures Draws(letter)(c) != Draws(letter)(d) {
      assert |Draws(letter)(c)| == c + 2 && |Draws(letter)(d)| == d + 2;
    }
    forall c: nat ensures Fresh(s, Draws(letter)(c)) {
      assert Draws(letter)(c)[0] == letter;
    }
  }

  function EveryEmit(): nat -> bool {
    (c: nat) => true
  }

  /** A completed file erasure and nothing else. */
  ghost predicate ErasedFile(s: State) {
    && Inv(s) && |s.requests| == 1 && s.closures == [] && s.now == 0
    && var r := s.requests[0];
    && r.head.correlation == "u" && r.head.subjectType == FILE && r.head.source.None?
    && r.state.Deleted? && r.completedAt == Some(0)
  }

  lemma EraseTheFile() returns (s: State)
    ensures Reachable(s) && ErasedFile(s)
  {
    var opening := OpenOneFile();
    var s0 := Apply(EMPTY, opening);
    OwnerConfirms(s0, 0);
    var receipt := Receipt(FILES, "u", OWNER, "", map[]);
    s := Apply(s0, receipt);
    TwoSteps(EMPTY, opening, receipt);
  }

  /** Its clone, waiting for the owner. */
  ghost predicate ClonedFile(t: State, uuid: string) {
    && Inv(t) && t.now == 0 && t.closures == [] && |t.requests| == 2 && t.requests[0].head.correlation == "u"
    && AwaitsOwner(t.requests[1]) && t.requests[1].head.correlation == uuid && t.requests[1].head.source == Some(0)
  }

  lemma CloneAwaitsOwner(s: State, uuid: string)
    requires ErasedFile(s)
    ensures var r := NewRequest(s, FILES, CloneArgs(s.requests[0], 0, 0), uuid);
            AwaitsOwner(r) && r.head.correlation == uuid && r.head.source == Some(0)
  {
    FilesAreClaimed();
  }

  lemma CloneIsOpened(s: State, uuid: string)
    requires ErasedFile(s) && Fresh(s, uuid)
    ensures var (t, result) := RequestErasure(s, FILES, CloneArgs(s.requests[0], 0, 0), uuid, true);
            result == Opened(1) && ClonedFile(t, uuid)
  {
    CloneAwaitsOwner(s, uuid);
    assert !HasClone(s.requests, 0);
    CloneOne(s, FILES, 0, 0, uuid);
    var a := CloneArgs(s.requests[0], 0, 0);
    assert a.subjectType in FILES.subjectTypes;
    var t := RequestErasure(s, FILES, a, uuid, true).0;
    assert t.requests == s.requests + [NewRequest(s, FILES, a, uuid)];
  }

  lemma CloneTheFile(s: State, uuids: nat -> string)
    requires ErasedFile(s) && FreshDraws(s, uuids)
    ensures ClonedFile(RequeueAfterRestore(s, FILES, 0, false, uuids, EveryEmit()).s, uuids(0))
  {
    CloneIsOpened(s, uuids(0));
    assert !HasClone(s.requests, 0);
    OneCandidate(s, FILES, 0, uuids, EveryEmit());
  }

  /** The clone's owner has confirmed. */
  ghost predicate ErasedAgain(u: State, uuid: string) {
    && Inv(u) && u.now == 0 && u.closures == [] && |u.requests| == 2
    && u.requests[0].head.correlation == "u" && u.requests[1].head.correlation == uuid
    && u.requests[1].head.subjectType == FILE && u.requests[1].head.source == Some(0)
    && u.requests[1].state.Deleted? && u.requests[1].completedAt == Some(0)
  }

  lemma EraseTheClone(t: State, uuid: string)
    requires ClonedFile(t, uuid)
    ensures ErasedAgain(Apply(t, Receipt(FILES, uuid, OWNER, "", map[])), uuid)
  {
    OwnerConfirms(t, 1);
  }

  lemma CloneTheClone(u: State, uuids: nat -> string, uuid: string)
    requires ErasedAgain(u, uuid) && FreshDraws(u, uuids)
    ensures |RequeueAfterRestore(u, FILES, 0, false, uuids, EveryEmit()).s.requests| > 2
  {
    CloneIsClonedAgain(u, FILES, 0, uuids, EveryEmit(), 1);
  }

  lemma SecondRun(t: State)
    requires ClonedFile(t, Draws('a')(0))
    ensures var u := Apply(t, Receipt(FILES, Draws('a')(0), OWNER, "", map[]));
            |u.requests| == 2 && |RequeueAfterRestore(u, FILES, 0, false, Draws('b'), EveryEmit()).s.requests| > 2
  {
    EraseTheClone(t, Draws('a')(0));
    var u := Apply(t, Receipt(FILES, Draws('a')(0), OWNER, "", map[]));
    FreshAgain(u);
    CloneTheClone(u, Draws('b'), Draws('a')(0));
  }

  lemma FreshAgain(u: State)
    requires ErasedAgain(u, Draws('a')(0))
    ensures FreshDraws(u, Draws('b'))
  {
    assert Draws('a')(0)[0] == 'a';
    DrawsAreFresh(u, 'b');
  }

  /** A file erasure completes, is re-queued after a restore, and its owner confirms again:
      the very same command then re-queues the clone. */
  lemma SameCommandTwice() returns (s: State, confirm: Step)
    ensures Reachable(s) && |s.requests| == 1
    ensures var t := RequeueAfterRestore(s, FILES, 0, false, Draws('a'), EveryEmit()).s;
            && |t.requests| == 2 && Enabled(t, confirm) && confirm.Receipt? && |Apply(t, confirm).requests| == 2
            && |RequeueAfterRestore(Apply(t, confirm), FILES, 0, false, Draws('b'), EveryEmit()).s.requests| > 2
  {
    s := EraseTheFile();
    confirm := Receipt(FILES, Draws('a')(0), OWNER, "", map[]);
    DrawsAreFresh(s, 'a');
    CloneTheFile(s, Draws('a'));
    var t := RequeueAfterRestore(s, FILES, 0, false, Draws('a'), EveryEmit()).s;
    SecondRun(t);
  }
}
