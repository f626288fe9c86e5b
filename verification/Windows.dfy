/** The processors' windows over whole runs: what the ledger holds when an erasure
    completes (orchestrator.py `_maybe_finalize`, subprocessors.py, models.py). */
module Windows {
  import opened Common
  import opened Subprocessors
  import opened Ledger
  import opened Protocol
  import opened Runs
  import opened Micro
  import opened Invariants
  import opened Frames

  /** The processors a configuration declares, blank names aside. */
  ghost function DeclaredNames(cfg: Config): set<string> {
    set e | e in cfg.processors && e.name != "" :: e.name
  }

  /** The obligations a request already had; none if it is only now being opened. */
  ghost function Earlier(s: State, pk: nat): map<string, Obligation> {
    if pk < |s.requests| then s.requests[pk].obligations else map[]
  }

  /** A step that completes a request. */
  ghost predicate Completes(s: State, step: Step, pk: nat) {
    && Enabled(s, step) && pk < |Apply(s, step).requests|
    && (pk < |s.requests| ==> !s.requests[pk].state.Deleted?)
    && Apply(s, step).requests[pk].state.Deleted?
  }

  /** Only a receipt or an execution completes a request, and it opens the windows of every
      declared processor at that very moment. */
  lemma CompletionRecords(s: State, step: Step, pk: nat)
    requires Inv(s) && Completes(s, step, pk)
    ensures step.Receipt? || step.Execute?
    ensures var r := Apply(s, step).requests[pk];
            && r.completedAt == Some(s.now)
            && r.obligations == Recorded(Earlier(s, pk), DeclaredPairs(step.cfg.processors, {}), s.now, s.now)
  {
    match step
    case Receipt(cfg, correlation, owner, id, counts) =>
      ReceiptFrame(s, cfg, correlation, owner, id, counts, pk);
    case Execute(cfg, c, uuid, host) =>
      ExecutionRecords(s, cfg, c, uuid, host, pk);
    case Open(cfg, a, uuid, emitOk) =>
      OpenFrame(s, cfg, a, uuid, emitOk);
      assert false;
    case Sweep(delivered) =>
      SweepEffect(s, delivered, pk);
      assert false;
    case RecordProcessors(_, _, _) => assert false;
    case _ =>
      NoRequestFrame(s, step);
      assert false;
  }

  lemma ExecutionRecords(s: State, cfg: Config, c: nat, uuid: string, host: Host, pk: nat)
    requires Linked(s) && Completes(s, Execute(cfg, c, uuid, host), pk)
    ensures var r := ExecuteDeletion(s, cfg, c, uuid, host).0.requests[pk];
            && r.completedAt == Some(s.now)
            && r.obligations == Recorded(Earlier(s, pk), DeclaredPairs(cfg.processors, {}), s.now, s.now)
  {
    EnsureFrame(s, cfg, c, uuid, host);
    EnsureWrites(s, cfg, c, uuid, host);
    var (s2, mine) := EnsureRequest(MarkDeleting(s, cfg, c, uuid), cfg, c, host);
    assert pk < |s.requests| ==> s2.requests[pk] == s2.requests[..|s.requests|][pk];
    if mine.Some? && !IsHeld(s, s.closures[c].head.user) {
      EraseLocallyFrame(s2, cfg, c, mine.value, host);
      LocalRecords(s2, cfg, c, mine.value, host);
    }
  }

  lemma LocalRecords(s: State, cfg: Config, c: nat, pk: nat, host: Host)
    requires c < |s.closures| && pk < |s.requests| && !s.requests[pk].state.Deleted?
    ensures var t := EraseLocally(s, cfg, c, pk, host).0;
            && |t.requests| == |s.requests|
            && (t.requests[pk].state.Deleted? ==>
                  && t.requests[pk].completedAt == Some(s.now)
                  && t.requests[pk].obligations == Recorded(s.requests[pk].obligations, DeclaredPairs(cfg.processors, {}), s.now, s.now))
  {
  }

  /** What recording processors writes, before or after completion: one new obligation per
      missing name, due its declared window after the completion, or after now if there is
      none yet; nothing else changes. */
  lemma RecordingSays(s: State, cfg: Config, pk: nat, only: set<string>)
    requires pk < |s.requests|
    ensures var t := Apply(s, RecordProcessors(cfg, pk, only));
            var r, r' := s.requests[pk], t.requests[pk];
            && t == s.(requests := t.requests) && |t.requests| == |s.requests| && r' == r.(obligations := r'.obligations)
            && (forall i :: 0 <= i < |s.requests| && i != pk ==> t.requests[i] == s.requests[i])
            && ObligationsGrow(r.obligations, r'.obligations)
            && (forall p :: p in r'.obligations <==>
                  p in r.obligations || (p != "" && (only == {} || p in only) && exists e :: e in cfg.processors && e.name == p))
            && (forall p :: p in r'.obligations && p !in r.obligations ==> OpensWindow(cfg, p, r'.obligations[p], r.completedAt, s.now))
  {
    var r := s.requests[pk];
    var pairs := DeclaredPairs(cfg.processors, only);
    var anchor := Anchor(r.completedAt, s.now);
    RecordedContents(r.obligations, pairs, anchor, s.now);
    PairsAreTheDeclaredNames(cfg.processors, only);
    var after := Recorded(r.obligations, pairs, anchor, s.now);
    forall p | p in after && p !in r.obligations ensures OpensWindow(cfg, p, after[p], r.completedAt, s.now) {
      WindowsAreDeclared(cfg.processors, only, p, after[p].windowDays);
    }
  }

  ghost predicate OpensWindow(cfg: Config, p: string, o: Obligation, completedAt: Option<int>, now: int) {
    && o.recordedAt == now && o.state.WindowOpen?
    && o.dueAt == (if completedAt.Some? then completedAt.value else now) + o.windowDays * 86400
    && exists i: nat :: FirstEntry(cfg.processors, p, i)
                        && o.windowDays == if cfg.processors[i].BareName? then 0 else cfg.processors[i].windowDays
  }

  /** When an erasure completes, the ledger holds one obligation per declared processor and
      whatever was recorded before, nothing else; all of it stays in every continuation. */
  lemma OneWindowPerProcessor(s: State, step: Step, pk: nat, later: seq<Step>)
    requires Inv(s) && Completes(s, step, pk) && ValidRun(Apply(s, step), later)
    ensures step.Receipt? || step.Execute?
    ensures Apply(s, step).requests[pk].obligations.Keys == Earlier(s, pk).Keys + DeclaredNames(step.cfg)
    ensures pk < |Run(Apply(s, step), later).requests|
    ensures ObligationsGrow(Apply(s, step).requests[pk].obligations, Run(Apply(s, step), later).requests[pk].obligations)
  {
    CompletionRecords(s, step, pk);
    RecordedContents(Earlier(s, pk), DeclaredPairs(step.cfg.processors, {}), s.now, s.now);
    PairsAreTheDeclaredNames(step.cfg.processors, {});
    assert PairNames(DeclaredPairs(step.cfg.processors, {})) == DeclaredNames(step.cfg);
    StepKeeps(s, step);
    RunKeeps(Apply(s, step), later);
    assert RequestEvolves(Apply(s, step).requests[pk], Run(Apply(s, step), later).requests[pk]);
  }

  /** The date published as "erased everywhere" once an erasure completes: the maximum of our
      own deadline, the due dates recorded earlier, and completion plus the longest window
      among the processors not yet recorded. It lies before the completion if and only if our
      deadline does, every declared processor was recorded earlier, and so do their dates. */
  lemma ErasedEverywhere(s: State, step: Step, pk: nat, before: int, window: nat, latest: int)
    requires Inv(s) && Completes(s, step, pk) && (step.Receipt? || step.Execute?)
    requires IsLatest(before, Apply(s, step).requests[pk].head.dueAt, Earlier(s, pk))
    requires IsLongest(window, Unrecorded(DeclaredPairs(step.cfg.processors, {}), Earlier(s, pk)))
    requires IsLatest(latest, Apply(s, step).requests[pk].head.dueAt, Apply(s, step).requests[pk].obligations)
    ensures latest == if DeclaredNames(step.cfg) <= Earlier(s, pk).Keys then before else Later(before, s.now + window * DAY)
    ensures latest < s.now <==>
              && Apply(s, step).requests[pk].head.dueAt < s.now && DeclaredNames(step.cfg) <= Earlier(s, pk).Keys
              && forall p :: p in Earlier(s, pk) ==> Earlier(s, pk)[p].dueAt < s.now
  {
    var dueAt := Apply(s, step).requests[pk].head.dueAt;
    CompletionRecords(s, step, pk);
    AllRecordedIff(step.cfg, Earlier(s, pk));
    ErasedEverywhereBy(Earlier(s, pk), step.cfg.processors, dueAt, s.now, s.now, before, window, latest);
    PublishedBeforeIff(Earlier(s, pk), step.cfg.processors, dueAt, s.now, s.now, latest);
  }

  lemma AllRecordedIff(cfg: Config, obligations: map<string, Obligation>)
    ensures PairNames(DeclaredPairs(cfg.processors, {})) == DeclaredNames(cfg)
    ensures Unrecorded(DeclaredPairs(cfg.processors, {}), obligations) == [] <==> DeclaredNames(cfg) <= obligations.Keys
  {
    var pairs := DeclaredPairs(cfg.processors, {});
    var missing := Unrecorded(pairs, obligations);
    PairsAreTheDeclaredNames(cfg.processors, {});
    assert PairNames(pairs) == DeclaredNames(cfg);
    if missing == [] {
      forall p | p in pairs ensures p.0 in obligations {
        assert p !in missing;
      }
    } else {
      assert missing[0] in missing && missing[0].0 in PairNames(pairs);
    }
  }
}
