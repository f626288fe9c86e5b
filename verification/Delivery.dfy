/** Receipts arrive in any order, more than once, and from strangers
    (orchestrator.py `mark_section_erased`, `_maybe_finalize`). */
module Delivery {
  import opened Common
  import opened Inventory
  import opened Ledger
  import opened Protocol
  import opened Runs
  import opened Invariants
  import opened Frames

  /** An inventory that can certify erasures of a subject, with the waiver hatch off. */
  predicate CanCertify(cfg: Config, subject: string) {
    cfg.report.Problems() == [] && cfg.report.OwnersFor(subject) != [] && !cfg.receiptsHatch
  }

  /** DELETED exactly when every slot is DONE, and then without a waiver. */
  ghost predicate Balanced(r: Request) {
    (r.Open() || r.state.Deleted?) && (r.state.Deleted? <==> r.AllDone()) && !r.waived
  }

  /** A step after which deliveries to request `pk` still count exactly: a sweep that finds
      none of its slots overdue, a receipt of its own judged by a sound inventory, an execution
      of another closure, or anything else. */
  ghost predicate Undisturbed(s: State, step: Step, pk: nat) {
    && pk < |s.requests|
    && (step.Sweep? ==> Silent(s.requests[pk], s.now) == {})
    && (step.Receipt? && step.correlation == s.requests[pk].head.correlation ==>
          CanCertify(step.cfg, s.requests[pk].head.subjectType))
    && (step.Execute? ==> s.requests[pk].head.closure != Some(step.closure))
  }

  /** A run of such steps. */
  ghost predicate QuietRun(s: State, steps: seq<Step>, pk: nat)
    requires ValidRun(s, steps)
    decreases |steps|
  {
    |steps| == 0 || (Undisturbed(s, steps[0], pk) && QuietRun(Apply(s, steps[0]), steps[1..], pk))
  }

  ghost predicate Delivers(step: Step, r: Request, owner: string) {
    step.Receipt? && step.correlation == r.head.correlation && step.owner == owner
  }

  /** A receipt for request `pk` whose gate is open. */
  lemma ReceiptBalances(s: State, cfg: Config, pk: nat, owner: string, id: string, counts: map<string, int>)
    requires pk < |s.requests| && Awaits(s.requests[pk], owner) && Balanced(s.requests[pk])
    requires GateOpen(s, s.requests[pk]) && CanCertify(cfg, s.requests[pk].head.subjectType)
    ensures var r, r' := s.requests[pk], MaybeFinalize(RecordReceipt(s, pk, owner, id, counts), cfg, pk).requests[pk];
            && Balanced(r')
            && r'.head == r.head && r'.parts.Keys == r.parts.Keys
            && forall o :: o in r.parts ==> (r'.parts[o].state.Done? <==> r.parts[o].state.Done? || o == owner)
  {
    NoBlockers(cfg, RecordReceipt(s, pk, owner, id, counts).requests[pk]);
  }

  /** The request runs for no closure, or for one that has done its part. */
  ghost predicate Deliverable(s: State, pk: nat) {
    && pk < |s.requests| && Balanced(s.requests[pk])
    && (s.requests[pk].Open() ==> GateOpen(s, s.requests[pk]))
  }

  lemma StepDelivers(s: State, step: Step, pk: nat)
    requires Inv(s) && Enabled(s, step) && Deliverable(s, pk) && Undisturbed(s, step, pk)
    ensures var t := Apply(s, step);
            && Deliverable(t, pk)
            && t.requests[pk].head == s.requests[pk].head && t.requests[pk].parts.Keys == s.requests[pk].parts.Keys
            && forall o :: o in s.requests[pk].parts ==>
                 (t.requests[pk].parts[o].state.Done? <==> s.requests[pk].parts[o].state.Done? || Delivers(step, s.requests[pk], o))
  {
    StepKeeps(s, step);
    var t := Apply(s, step);
    var r := s.requests[pk];
    assert RequestEvolves(r, t.requests[pk]);
    match step {
      case Receipt(cfg, correlation, owner, id, counts) =>
        ReceiptFrame(s, cfg, correlation, owner, id, counts, pk);
        if correlation == r.head.correlation && Awaits(r, owner) {
          ReceiptBalances(s, cfg, pk, owner, id, counts);
        }
      case Open(cfg, a, uuid, emitOk) => OpenFrame(s, cfg, a, uuid, emitOk);
      case Execute(cfg, c, uuid, host) => ExecuteFrame(s, cfg, c, uuid, host);
      case Sweep(delivered) => SweepFrame(s, delivered, pk);
      case RecordProcessors(_, _, _) =>
      case _ => NoRequestFrame(s, step);
    }
    GateStays(s, step, pk);
  }

  /** A gate that stands open stays open until the request is certified. */
  lemma GateStays(s: State, step: Step, pk: nat)
    requires Inv(s) && Enabled(s, step) && pk < |s.requests|
    requires s.requests[pk].Open() ==> GateOpen(s, s.requests[pk])
    requires Evolves(s, Apply(s, step)) && Inv(Apply(s, step))
    ensures Apply(s, step).requests[pk].Open() ==> GateOpen(Apply(s, step), Apply(s, step).requests[pk])
  {
    var t := Apply(s, step);
    assert RequestEvolves(s.requests[pk], t.requests[pk]);
    if t.requests[pk].Open() && t.requests[pk].head.closure.Some? {
      var c := t.requests[pk].head.closure.value;
      assert ClosureEvolves(s.closures[c], t.closures[c]);
      if t.closures[c].status.ClosureDeleted? {
        OpenRequestMeansOpenClosure(t, pk, c);
      }
    }
  }

  /** Nobody closes off a closure while its own request is open. */
  lemma OpenRequestMeansOpenClosure(s: State, pk: nat, c: nat)
    requires Inv(s) && pk < |s.requests| && s.requests[pk].Open() && s.requests[pk].head.closure == Some(c) && c < |s.closures|
    ensures !s.closures[c].status.ClosureDeleted?
  {
    if s.closures[c].status.ClosureDeleted? {
      var i: nat :| Certifies(s, i, c);
      assert s.closures[c].correlation == Some(s.requests[i].head.correlation);
      assert s.closures[c].correlation == Some(s.requests[pk].head.correlation);
      var a, b := if i < pk then i else pk, if i < pk then pk else i;
      assert i != pk;
      assert Clashes(s.requests[a].head, s.requests[b].head);
      assert false;
    }
  }

  /** Some step of the run confirms `owner`. */
  ghost predicate Confirmed(steps: seq<Step>, r: Request, owner: string) {
    exists i :: 0 <= i < |steps| && Delivers(steps[i], r, owner)
  }

  /** Confluence: over every run in which the inventory stays sound and no sweep finds the
      request overdue, a slot ends DONE exactly when it was or its owner confirmed, and the
      request is DELETED, un-waived, exactly when every slot is. Order, repeats and
      strangers play no part. */
  lemma {:induction false} DeliveryIsExact(s: State, steps: seq<Step>, pk: nat)
    requires Inv(s) && ValidRun(s, steps) && Deliverable(s, pk) && QuietRun(s, steps, pk)
    ensures pk < |Run(s, steps).requests|
    ensures var r, r' := s.requests[pk], Run(s, steps).requests[pk];
            && r'.parts.Keys == r.parts.Keys
            && (forall o :: o in r.parts ==>
                  (r'.parts[o].state.Done? <==> r.parts[o].state.Done? || Confirmed(steps, r, o)))
            && (r'.state.Deleted? <==> forall o :: o in r.parts ==> r.parts[o].state.Done? || Confirmed(steps, r, o))
            && !r'.waived && Deliverable(Run(s, steps), pk)
    decreases |steps|
  {
    if |steps| != 0 {
      var t := Apply(s, steps[0]);
      StepKeeps(s, steps[0]);
      StepDelivers(s, steps[0], pk);
      DeliveryIsExact(t, steps[1..], pk);
      forall o
        ensures Confirmed(steps, s.requests[pk], o) <==>
                  Delivers(steps[0], s.requests[pk], o) || Confirmed(steps[1..], t.requests[pk], o)
      {
        ConfirmedSplit(steps, s.requests[pk], t.requests[pk], o);
      }
    }
  }

  lemma ConfirmedSplit(steps: seq<Step>, r: Request, r': Request, o: string)
    requires |steps| != 0 && r'.head == r.head
    ensures Confirmed(steps, r, o) <==> Delivers(steps[0], r, o) || Confirmed(steps[1..], r', o)
  {
    if Confirmed(steps, r, o) {
      var i :| 0 <= i < |steps| && Delivers(steps[i], r, o);
      if i > 0 {
        assert Delivers(steps[1..][i - 1], r', o);
      }
    }
    if Confirmed(steps[1..], r', o) {
      var i :| 0 <= i < |steps[1..]| && Delivers(steps[1..][i], r', o);
      assert Delivers(steps[i + 1], r, o);
    }
  }

  /** Two deliveries that cover the same owners certify alike, whatever else differs. */
  lemma Confluence(s: State, steps: seq<Step>, others: seq<Step>, pk: nat)
    requires Inv(s) && ValidRun(s, steps) && ValidRun(s, others) && Deliverable(s, pk)
    requires QuietRun(s, steps, pk) && QuietRun(s, others, pk)
    requires forall o :: o in s.requests[pk].parts && !s.requests[pk].parts[o].state.Done? ==>
               (Confirmed(steps, s.requests[pk], o) <==> Confirmed(others, s.requests[pk], o))
    ensures pk < |Run(s, steps).requests| && pk < |Run(s, others).requests|
    ensures var a, b := Run(s, steps).requests[pk], Run(s, others).requests[pk];
            && a.Unreceipted() == b.Unreceipted() && a.waived == b.waived
            && (a.state.Deleted? <==> b.state.Deleted?) && a.Outcome() == b.Outcome()
  {
    DeliveryIsExact(s, steps, pk);
    DeliveryIsExact(s, others, pk);
    SameVerdict(Run(s, steps).requests[pk], Run(s, others).requests[pk]);
  }

  lemma SameVerdict(a: Request, b: Request)
    requires Balanced(a) && Balanced(b) && a.parts.Keys == b.parts.Keys
    requires forall o :: o in a.parts ==> (a.parts[o].state.Done? <==> b.parts[o].state.Done?)
    ensures a.Unreceipted() == b.Unreceipted() && (a.state.Deleted? <==> b.state.Deleted?) && a.Outcome() == b.Outcome()
  {
    CompleteMeans(a);
    CompleteMeans(b);
  }

  // ----- waiting is not failing -----

  /** What `_still_in_flight` promises: a sweep now does not touch the request, and once the
      outstanding owners have confirmed after it, the request is DELETED without a waiver. */
  lemma InFlightArrives(s: State, pk: nat, cfg: Config, delivered: nat, steps: seq<Step>)
    requires Inv(s) && pk < |s.requests| && s.requests[pk].Open() && GateOpen(s, s.requests[pk])
    requires StillInFlight(s.requests[pk], Blockers(cfg, s.requests[pk]), cfg.report, s.now)
    requires ValidRun(Apply(s, Sweep(delivered)), steps) && QuietRun(Apply(s, Sweep(delivered)), steps, pk)
    requires forall o :: o in s.requests[pk].Unreceipted() ==> Confirmed(steps, s.requests[pk], o)
    ensures var t := Apply(s, Sweep(delivered));
            && t.requests[pk] == s.requests[pk]
            && pk < |Run(t, steps).requests| && Run(t, steps).requests[pk].Outcome() == Complete
  {
    var r := s.requests[pk];
    forall o ensures o !in Silent(r, s.now) {
    }
    SweepFrame(s, delivered, pk);
    StepKeeps(s, Sweep(delivered));
    assert RequestSound(r);
    var waiting :| waiting in r.Unreceipted();
    assert !r.AllDone();
    var t := Apply(s, Sweep(delivered));
    DeliveryIsExact(t, steps, pk);
    forall o | o in r.parts ensures r.parts[o].state.Done? || Confirmed(steps, r, o) {
      assert o in r.Unreceipted() || r.parts[o].state.Done?;
    }
    CompleteMeans(Run(t, steps).requests[pk]);
  }

  /** It answers exactly "sound inventory, somebody is waited for, and none of them is late". */
  lemma InFlightMeans(cfg: Config, r: Request, now: int)
    ensures StillInFlight(r, Blockers(cfg, r), cfg.report, now) <==>
              && cfg.report.Problems() == [] && cfg.report.OwnersFor(r.head.subjectType) != []
              && !r.AllDone()
              && (forall o :: o in r.Unreceipted() ==> now < r.parts[o].deadline)
  {
    NoBlockers(cfg, r);
    assert r.AllDone() <==> r.Unreceipted() == {} by {
      if r.Unreceipted() == {} {
        forall o | o in r.parts ensures r.parts[o].state.Done? {
          assert o !in r.Unreceipted();
        }
      } else {
        var o :| o in r.Unreceipted();
      }
    }
  }

  /** An inventory in which one remote owner claims the subject. */
  function SoundConfig(subject: string): Config {
    Config(RegistryReport("", [DataOwner("owner", Remote, 3600, [subject])], [], {}, false), [subject], 30, false, false, [], [])
  }

  lemma SoundConfigCertifies(subject: string)
    ensures CanCertify(SoundConfig(subject), subject)
  {
    var owners := SoundConfig(subject).report.owners;
    assert owners[0] in owners && owners[0].Claims(subject);
    assert owners[0] in SoundConfig(subject).report.OwnersFor(subject);
  }

  /** One confirmation of each owner in a set. */
  lemma ConfirmAll(r: Request, cfg: Config, owners: set<string>) returns (steps: seq<Step>)
    ensures forall i :: 0 <= i < |steps| ==> steps[i].Receipt? && steps[i].cfg == cfg
    ensures forall o :: o in owners ==> Confirmed(steps, r, o)
    decreases owners
  {
    if owners == {} {
      steps := [];
    } else {
      var o :| o in owners;
      var rest := ConfirmAll(r, cfg, owners - {o});
      steps := [Receipt(cfg, r.head.correlation, o, "", map[])] + rest;
      assert Delivers(steps[0], r, o);
      forall p | p in owners ensures Confirmed(steps, r, p) {
        if p != o {
          assert p in owners - {o} && Confirmed(rest, r, p);
          var i :| 0 <= i < |rest| && Delivers(rest[i], r, p);
          assert Delivers(steps[i + 1], r, p);
        }
      }
    }
  }

  lemma {:induction false} ReceiptsAlwaysRun(s: State, steps: seq<Step>, pk: nat)
    requires pk < |s.requests|
    requires forall i :: 0 <= i < |steps| ==> steps[i].Receipt? && CanCertify(steps[i].cfg, s.requests[pk].head.subjectType)
    ensures ValidRun(s, steps) && QuietRun(s, steps, pk)
    decreases |steps|
  {
    if |steps| != 0 {
      assert forall i :: 0 <= i < |steps[1..]| ==> steps[1..][i] == steps[i + 1];
      ReceiptKeepsHead(s, steps[0], pk);
      ReceiptsAlwaysRun(Apply(s, steps[0]), steps[1..], pk);
    }
  }

  lemma ReceiptKeepsHead(s: State, step: Step, pk: nat)
    requires step.Receipt? && pk < |s.requests|
    ensures |Apply(s, step).requests| == |s.requests| && Apply(s, step).requests[pk].head == s.requests[pk].head
  {
  }
}
