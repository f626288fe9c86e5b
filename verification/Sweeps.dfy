/** The deadline sweep (orchestrator.py `sweep_deletion_deadlines`): silence becomes a
    state, exactly, whenever the sweep runs to completion. */
module Sweeps {
  import opened Common
  import opened Inventory
  import opened Ledger
  import opened Protocol
  import opened Runs
  import opened Micro
  import opened Invariants
  import opened Frames

  /** The slots overdue now, as (request, owner) pairs. */
  ghost function OverdueSlots(requests: seq<Request>, now: int): set<(nat, string)> {
    set i: nat, o: string | i < |requests| && o in requests[i].parts && Late(requests[i].parts[o], now) :: (i, o)
  }

  /** Waited for, and the time is up. */
  ghost predicate Late(p: Part, now: int) {
    p.state.Pending? && p.deadline <= now
  }

  lemma {:induction false} PairsOf(n: nat, owners: set<string>)
    ensures |set o | o in owners :: (n, o)| == |owners|
  {
    var pairs := set o | o in owners :: (n, o);
    if owners == {} {
      assert pairs == {};
    } else {
      var x :| x in owners;
      PairsOf(n, owners - {x});
      assert pairs == (set o | o in owners - {x} :: (n, o)) + {(n, x)};
    }
  }

  /** The number the sweep returns is the number of slots it flips. */
  lemma {:induction false} CountIsExact(requests: seq<Request>, now: int)
    ensures FlipCount(requests, now) == |OverdueSlots(requests, now)|
  {
    if requests == [] {
      assert OverdueSlots(requests, now) == {};
    } else {
      var n := |requests| - 1;
      var earlier := OverdueSlots(requests[..n], now);
      var last := set o | o in Silent(requests[n], now) :: (n, o);
      CountIsExact(requests[..n], now);
      PairsOf(n, Silent(requests[n], now));
      forall p | p in OverdueSlots(requests, now) ensures p in earlier + last {
        if p.0 < n {
          assert requests[..n][p.0] == requests[p.0];
        }
      }
      forall p | p in earlier ensures p in OverdueSlots(requests, now) {
        assert requests[..n][p.0] == requests[p.0];
      }
      assert OverdueSlots(requests, now) == earlier + last;
      assert earlier !! last;
    }
  }

  function TimeoutEvents(before: seq<Request>, todo: seq<nat>, now: int): seq<Event>
    requires forall i :: 0 <= i < |todo| ==> todo[i] < |before|
  {
    seq(|todo|, i requires 0 <= i < |todo| => TimeoutEvent(todo[i], before[todo[i]], now))
  }

  lemma {:induction false} TimeoutLog(s: State, before: seq<Request>, todo: seq<nat>)
    requires |before| == |s.requests| && forall i :: 0 <= i < |todo| ==> todo[i] < |s.requests|
    ensures TimeoutUnits(s, before, todo).log == s.log + TimeoutEvents(before, todo, s.now)
  {
    if todo != [] {
      var n := |todo| - 1;
      TimeoutLog(s, before, todo[..n]);
      assert TimeoutEvents(before, todo, s.now)
             == TimeoutEvents(before, todo[..n], s.now) + [TimeoutEvent(todo[n], before[todo[n]], s.now)];
    }
  }

  /** Row by row, what a completed sweep leaves. */
  ghost function Swept(s: State, pk: nat): Request
    requires pk < |s.requests|
  {
    var flipped := FlipRequest(s.requests[pk], s.now);
    if pk in LosingRequests(s.requests, s.now) then flipped.(state := Timeout) else flipped
  }

  /** A completed sweep leaves no slot pending past its deadline; it moves to TIMEOUT
      exactly the open requests that lost a slot and announces each of them once, naming
      exactly the owners flipped in this pass; closures stay untouched. */
  lemma CompletedSweep(s: State, delivered: nat)
    requires SweepCompletes(s, delivered)
    ensures var t := SweepDeletionDeadlines(s, delivered);
            && |t.requests| == |s.requests| && t.closures == s.closures
            && t.log == s.log + TimeoutEvents(s.requests, LosingRequests(s.requests, s.now), s.now)
            && OverdueSlots(t.requests, s.now) == {}
            && forall pk: nat :: pk < |s.requests| ==> t.requests[pk] == Swept(s, pk)
  {
    var t := SweepDeletionDeadlines(s, delivered);
    forall pk: nat | pk < |s.requests| ensures t.requests[pk] == Swept(s, pk) && Silent(t.requests[pk], s.now) == {} {
      SweepEffect(s, delivered, pk);
      NothingLeft(s, pk);
    }
    CompletedLog(s, delivered);
  }

  lemma NothingLeft(s: State, pk: nat)
    requires pk < |s.requests|
    ensures Silent(Swept(s, pk), s.now) == {}
  {
  }

  lemma CompletedLog(s: State, delivered: nat)
    requires SweepCompletes(s, delivered)
    ensures SweepDeletionDeadlines(s, delivered).log == s.log + TimeoutEvents(s.requests, LosingRequests(s.requests, s.now), s.now)
  {
    var lost := LosingRequests(s.requests, s.now);
    assert Prefix(lost, delivered) == lost;
    if FlipCount(s.requests, s.now) == 0 {
      NobodyLost(s.requests, s.now);
    } else {
      TimeoutLog(s.(requests := FlipAll(s.requests, s.now)), s.requests, lost);
    }
  }

  /** What a completed sweep leaves of one request: late slots are TIMEOUT, all others as they
      were; the request is TIMEOUT if it was, or was open and lost a slot. */
  ghost predicate TimedOutFor(r: Request, r': Request, now: int) {
    && r' == r.(parts := r'.parts, state := r'.state) && r'.parts.Keys == r.parts.Keys
    && (forall o :: o in r.parts ==> r'.parts[o] == if Late(r.parts[o], now) then r.parts[o].(state := TimedOut) else r.parts[o])
    && r'.state == if (r.state.Queued? || r.state.Erasing?) && (exists o :: o in r.parts && Late(r.parts[o], now)) then Timeout else r.state
  }

  /** A timeout event of this pass: for a request that was open, naming exactly its late owners. */
  ghost predicate TellsOf(s: State, e: Event) {
    && e.ErasureTimeout? && e.request < |s.requests|
    && var r := s.requests[e.request];
    && (r.state.Queued? || r.state.Erasing?) && e.owners != {}
    && (forall o :: o in e.owners <==> o in r.parts && Late(r.parts[o], s.now))
  }

  /** A completed sweep, slot by slot and event by event. */
  lemma SweepSays(s: State, delivered: nat)
    requires SweepCompletes(s, delivered)
    ensures var t := SweepDeletionDeadlines(s, delivered);
            && s.log <= t.log
            && (forall pk: nat :: pk < |s.requests| ==> TimedOutFor(s.requests[pk], t.requests[pk], s.now))
            && (forall i :: |s.log| <= i < |t.log| ==> TellsOf(s, t.log[i]))
            && (forall i, j :: |s.log| <= i < j < |t.log| ==> t.log[i].request != t.log[j].request)
            && (forall pk: nat :: pk < |s.requests| && t.requests[pk].state.Timeout? && !s.requests[pk].state.Timeout? ==>
                  Told(s.log, t.log, pk))
  {
    SweepRows(s, delivered);
    SweepEvents(s, delivered);
  }

  lemma SweepRows(s: State, delivered: nat)
    requires SweepCompletes(s, delivered)
    ensures var t := SweepDeletionDeadlines(s, delivered);
            forall pk: nat :: pk < |s.requests| ==> TimedOutFor(s.requests[pk], t.requests[pk], s.now)
  {
    CompletedSweep(s, delivered);
    forall pk: nat | pk < |s.requests| ensures TimedOutFor(s.requests[pk], SweepDeletionDeadlines(s, delivered).requests[pk], s.now) {
      SweptMeans(s, pk);
    }
  }

  lemma SweepEvents(s: State, delivered: nat)
    requires SweepCompletes(s, delivered)
    ensures var t := SweepDeletionDeadlines(s, delivered);
            && s.log <= t.log
            && (forall i :: |s.log| <= i < |t.log| ==> TellsOf(s, t.log[i]))
            && (forall i, j :: |s.log| <= i < j < |t.log| ==> t.log[i].request != t.log[j].request)
            && (forall pk: nat :: pk < |s.requests| && t.requests[pk].state.Timeout? && !s.requests[pk].state.Timeout? ==>
                  Told(s.log, t.log, pk))
  {
    CompletedSweep(s, delivered);
    var t := SweepDeletionDeadlines(s, delivered);
    var lost := LosingRequests(s.requests, s.now);
    EventsTell(s, lost);
    LogTells(s, t.log, TimeoutEvents(s.requests, lost, s.now), lost);
    forall pk: nat | pk < |s.requests| && t.requests[pk].state.Timeout? && !s.requests[pk].state.Timeout? ensures Told(s.log, t.log, pk) {
      NewTimeoutIsLost(s, t, pk);
    }
  }

  lemma NewTimeoutIsLost(s: State, t: State, pk: nat)
    requires pk < |s.requests| && pk < |t.requests| && t.requests[pk] == Swept(s, pk)
    requires t.requests[pk].state.Timeout? && !s.requests[pk].state.Timeout?
    ensures pk in LosingRequests(s.requests, s.now)
  {
  }

  /** One of the events added is about request `pk`. */
  ghost predicate Told(log: seq<Event>, log': seq<Event>, pk: nat) {
    exists i :: |log| <= i < |log'| && log'[i].ErasureTimeout? && log'[i].request == pk
  }

  lemma LogTells(s: State, log': seq<Event>, events: seq<Event>, lost: seq<nat>)
    requires log' == s.log + events && |events| == |lost| && Distinct(lost)
    requires forall k :: 0 <= k < |lost| ==> TellsOf(s, events[k]) && events[k].request == lost[k]
    ensures s.log <= log' && forall i :: |s.log| <= i < |log'| ==> TellsOf(s, log'[i])
    ensures forall i, j :: |s.log| <= i < j < |log'| && log'[i].ErasureTimeout? && log'[j].ErasureTimeout? ==>
              log'[i].request != log'[j].request
    ensures forall pk :: pk in lost ==> Told(s.log, log', pk)
  {
    forall i | |s.log| <= i < |log'| ensures TellsOf(s, log'[i]) && log'[i].request == lost[i - |s.log|] {
      assert log'[i] == events[i - |s.log|];
    }
    forall pk | pk in lost ensures Told(s.log, log', pk) {
      var k :| 0 <= k < |lost| && lost[k] == pk;
      assert log'[|s.log| + k].request == pk;
    }
  }

  lemma EventsTell(s: State, lost: seq<nat>)
    requires lost == LosingRequests(s.requests, s.now)
    ensures forall k :: 0 <= k < |lost| ==>
              var e := TimeoutEvents(s.requests, lost, s.now)[k]; TellsOf(s, e) && e.request == lost[k]
  {
    forall k | 0 <= k < |lost| ensures TellsOf(s, TimeoutEvents(s.requests, lost, s.now)[k]) {
      assert lost[k] in lost;
      EventTells(s, lost[k]);
    }
  }

  lemma SweptMeans(s: State, pk: nat)
    requires pk < |s.requests|
    ensures TimedOutFor(s.requests[pk], Swept(s, pk), s.now)
  {
    var r := s.requests[pk];
    assert Silent(r, s.now) != {} <==> exists o :: o in r.parts && Late(r.parts[o], s.now) by {
      if Silent(r, s.now) != {} {
        var o :| o in Silent(r, s.now);
        assert Late(r.parts[o], s.now);
      }
      if o :| o in r.parts && Late(r.parts[o], s.now) {
        assert o in Silent(r, s.now);
      }
    }
  }

  lemma EventTells(s: State, pk: nat)
    requires pk in LosingRequests(s.requests, s.now) && pk < |s.requests|
    ensures TellsOf(s, TimeoutEvent(pk, s.requests[pk], s.now))
  {
  }

  /** Sweeping again at the same moment changes nothing. */
  lemma SweepIsIdempotent(s: State, delivered: nat, again: nat)
    requires SweepCompletes(s, delivered)
    ensures var t := SweepDeletionDeadlines(s, delivered); SweepDeletionDeadlines(t, again) == t
  {
    var t := SweepDeletionDeadlines(s, delivered);
    CompletedSweep(s, delivered);
    CountIsExact(t.requests, s.now);
  }

  // ----- timed-out slots over whole runs -----

  /** A TIMEOUT slot belongs to a TIMEOUT request or to one DELETED under a waiver. */
  ghost predicate Accounted(r: Request) {
    (exists o :: o in r.parts && r.parts[o].state.TimedOut?) ==> r.state.Timeout? || (r.state.Deleted? && r.waived)
  }

  ghost predicate AllAccounted(s: State) {
    forall pk :: 0 <= pk < |s.requests| ==> Accounted(s.requests[pk])
  }

  /** Only the sweep times a slot out. */
  ghost predicate NoNewTimeouts(s: State, t: State) {
    forall i, o :: 0 <= i < |t.requests| && o in t.requests[i].parts && t.requests[i].parts[o].state.TimedOut? ==>
      i < |s.requests| && o in s.requests[i].parts && s.requests[i].parts[o].state.TimedOut?
  }

  lemma ExecuteTimesNobodyOut(s: State, cfg: Config, c: nat, uuid: string, host: Host)
    requires Enabled(s, Execute(cfg, c, uuid, host)) && Linked(s)
    ensures NoNewTimeouts(s, ExecuteDeletion(s, cfg, c, uuid, host).0)
  {
    if !IsHeld(s, s.closures[c].head.user) {
      EnsureFrame(s, cfg, c, uuid, host);
      EnsureWrites(s, cfg, c, uuid, host);
      var (s2, pk) := EnsureRequest(MarkDeleting(s, cfg, c, uuid), cfg, c, host);
      EnsureTimesNobodyOut(s, s2, cfg, c);
      if pk.Some? {
        LocalTimesNobodyOut(s2, cfg, c, pk.value, host);
      }
    }
  }

  lemma EnsureTimesNobodyOut(s: State, t: State, cfg: Config, c: nat)
    requires |s.requests| <= |t.requests| <= |s.requests| + 1 && t.requests[..|s.requests|] == s.requests && c < |t.closures|
    requires |t.requests| > |s.requests| ==>
               t.closures[c].correlation.Some? &&
               t.requests[|s.requests|] == NewRequest(t, cfg, AccountErasure(t.closures[c], c), t.closures[c].correlation.value)
    ensures NoNewTimeouts(s, t)
  {
    SlotsOf(cfg.report.OwnersFor(SUBJECT_ACCOUNT), t.now);
    assert forall i :: 0 <= i < |s.requests| ==> t.requests[i] == t.requests[..|s.requests|][i];
  }

  lemma LocalTimesNobodyOut(s: State, cfg: Config, c: nat, pk: nat, host: Host)
    requires c < |s.closures| && pk < |s.requests| && s.requests[pk].head.closure == Some(c)
    ensures NoNewTimeouts(s, EraseLocally(s, cfg, c, pk, host).0)
  {
    EraseLocallyFrame(s, cfg, c, pk, host);
    LocalParts(s, cfg, c, pk, host);
  }

  lemma LocalParts(s: State, cfg: Config, c: nat, pk: nat, host: Host)
    requires c < |s.closures| && pk < |s.requests|
    ensures var t := EraseLocally(s, cfg, c, pk, host).0;
            && |t.requests| == |s.requests|
            && t.requests[pk].parts == LocalReceipts(s.requests[pk], cfg.report, FailedSections(cfg.providers, host), s.now)
  {
  }

  lemma OpenTimesNobodyOut(s: State, cfg: Config, a: OpenArgs, uuid: string, emitOk: bool)
    ensures NoNewTimeouts(s, RequestErasure(s, cfg, a, uuid, emitOk).0)
  {
    SlotsOf(cfg.report.OwnersFor(a.subjectType), s.now);
  }

  lemma OthersTimeNobodyOut(s: State, step: Step)
    requires Inv(s) && Enabled(s, step) && !step.Sweep?
    ensures NoNewTimeouts(s, Apply(s, step))
  {
    match step
    case Open(cfg, a, uuid, emitOk) =>
      OpenTimesNobodyOut(s, cfg, a, uuid, emitOk);
    case Receipt(cfg, correlation, owner, id, counts) =>
      ReceiptTimesNobodyOut(s, cfg, correlation, owner, id, counts);
    case Execute(cfg, c, uuid, host) =>
      ExecuteTimesNobodyOut(s, cfg, c, uuid, host);
    case RecordProcessors(_, _, _) =>
    case _ => NoRequestFrame(s, step);
  }

  lemma ReceiptTimesNobodyOut(s: State, cfg: Config, correlation: string, owner: string, id: string, counts: map<string, int>)
    ensures NoNewTimeouts(s, MarkSectionErased(s, cfg, correlation, owner, id, counts))
  {
    var found := FindByCorrelation(s.requests, correlation);
    if found.Some? && Awaits(s.requests[found.value], owner) {
      var t := RecordReceipt(s, found.value, owner, id, counts);
      FinalizeKeepsParts(t, cfg, found.value);
    }
  }

  lemma FinalizeKeepsParts(s: State, cfg: Config, pk: nat)
    requires pk < |s.requests|
    ensures var t := MaybeFinalize(s, cfg, pk);
            |t.requests| == |s.requests| && forall i :: 0 <= i < |s.requests| ==> t.requests[i].parts == s.requests[i].parts
  {
  }

  lemma {:induction false} TimeoutsAccounted(s: State, steps: seq<Step>)
    requires Inv(s) && ValidRun(s, steps) && AllAccounted(s) && SweepsComplete(s, steps)
    ensures AllAccounted(Run(s, steps))
    decreases |steps|
  {
    if |steps| != 0 {
      StepKeeps(s, steps[0]);
      AccountedStep(s, steps[0]);
      TimeoutsAccounted(Apply(s, steps[0]), steps[1..]);
    }
  }

  /** Every sweep of the run gets all its events out. */
  ghost predicate SweepsComplete(s: State, steps: seq<Step>)
    requires ValidRun(s, steps)
    decreases |steps|
  {
    |steps| == 0 ||
    ((steps[0].Sweep? ==> SweepCompletes(s, steps[0].delivered)) && SweepsComplete(Apply(s, steps[0]), steps[1..]))
  }

  lemma AccountedStep(s: State, step: Step)
    requires Inv(s) && Enabled(s, step) && AllAccounted(s)
    requires step.Sweep? ==> SweepCompletes(s, step.delivered)
    requires Evolves(s, Apply(s, step))
    ensures AllAccounted(Apply(s, step))
  {
    if step.Sweep? {
      SweepAccounts(s, step.delivered);
    } else {
      OthersTimeNobodyOut(s, step);
      StillAccounted(s, Apply(s, step));
    }
  }

  lemma StillAccounted(s: State, t: State)
    requires AllAccounted(s) && Evolves(s, t) && NoNewTimeouts(s, t)
    ensures AllAccounted(t)
  {
    forall pk | 0 <= pk < |t.requests| ensures Accounted(t.requests[pk]) {
      if o :| o in t.requests[pk].parts && t.requests[pk].parts[o].state.TimedOut? {
        assert s.requests[pk].parts[o].state.TimedOut?;
        assert RequestEvolves(s.requests[pk], t.requests[pk]);
      }
    }
  }

  lemma SweepAccounts(s: State, delivered: nat)
    requires RowsSound(s) && AllAccounted(s) && SweepCompletes(s, delivered)
    ensures AllAccounted(SweepDeletionDeadlines(s, delivered))
  {
    var t := SweepDeletionDeadlines(s, delivered);
    CompletedSweep(s, delivered);
    forall pk: nat | pk < |t.requests| ensures Accounted(t.requests[pk]) {
      var r := s.requests[pk];
      assert Accounted(r) && RequestSound(r);
      if o :| o in t.requests[pk].parts && t.requests[pk].parts[o].state.TimedOut? {
        if !r.parts[o].state.TimedOut? {
          assert o in Silent(r, s.now);
          assert !r.AllDone();
        }
      }
    }
  }

  // ----- a sweep that does not complete -----

  ghost predicate NonePending(r: Request) {
    forall o :: o in r.parts ==> !r.parts[o].state.Pending?
  }

  /** A request with no pending slot is beyond the reach of every later sweep: if it is not
      TIMEOUT now it never will be, and no timeout event will name it. */
  lemma {:induction false} NeverTimesOut(s: State, steps: seq<Step>, pk: nat)
    requires Inv(s) && ValidRun(s, steps) && pk < |s.requests|
    requires NonePending(s.requests[pk]) && !s.requests[pk].state.Timeout?
    ensures pk < |Run(s, steps).requests| && !Run(s, steps).requests[pk].state.Timeout?
    decreases |steps|
  {
    if |steps| != 0 {
      var t := Apply(s, steps[0]);
      StepKeeps(s, steps[0]);
      assert RequestEvolves(s.requests[pk], t.requests[pk]);
      forall o | o in t.requests[pk].parts ensures !t.requests[pk].parts[o].state.Pending? {
        assert PartEvolves(s.requests[pk].parts[o], t.requests[pk].parts[o]);
      }
      OnlySweepsTimeOut(s, steps[0], pk);
      NeverTimesOut(t, steps[1..], pk);
    }
  }

  lemma OnlySweepsTimeOut(s: State, step: Step, pk: nat)
    requires Inv(s) && Enabled(s, step) && pk < |s.requests| && pk < |Apply(s, step).requests|
    requires NonePending(s.requests[pk]) && !s.requests[pk].state.Timeout?
    ensures !Apply(s, step).requests[pk].state.Timeout?
  {
    match step
    case Sweep(delivered) =>
      assert Silent(s.requests[pk], s.now) == {};
      SweepFrame(s, delivered, pk);
    case Execute(cfg, c, uuid, host) => ExecuteNoTimeout(s, cfg, c, uuid, host, pk);
    case Receipt(cfg, correlation, owner, id, counts) => ReceiptFrame(s, cfg, correlation, owner, id, counts, pk);
    case Open(cfg, a, uuid, emitOk) => OpenFrame(s, cfg, a, uuid, emitOk);
    case RecordProcessors(_, _, _) =>
    case _ => NoRequestFrame(s, step);
  }

  lemma ExecuteNoTimeout(s: State, cfg: Config, c: nat, uuid: string, host: Host, pk: nat)
    requires Enabled(s, Execute(cfg, c, uuid, host)) && Linked(s) && pk < |s.requests| && !s.requests[pk].state.Timeout?
    requires pk < |ExecuteDeletion(s, cfg, c, uuid, host).0.requests|
    ensures !ExecuteDeletion(s, cfg, c, uuid, host).0.requests[pk].state.Timeout?
  {
    if !IsHeld(s, s.closures[c].head.user) {
      EnsureFrame(s, cfg, c, uuid, host);
      EnsureWrites(s, cfg, c, uuid, host);
      var (s2, mine) := EnsureRequest(MarkDeleting(s, cfg, c, uuid), cfg, c, host);
      assert s2.requests[pk] == s2.requests[..|s.requests|][pk];
      if mine.Some? {
        EraseLocallyFrame(s2, cfg, c, mine.value, host);
        if mine.value == pk {
          LocalNoTimeout(s2, cfg, c, pk, host);
        }
      }
    }
  }

  lemma LocalNoTimeout(s: State, cfg: Config, c: nat, pk: nat, host: Host)
    requires c < |s.closures| && pk < |s.requests| && !s.requests[pk].state.Timeout?
    ensures var t := EraseLocally(s, cfg, c, pk, host).0; |t.requests| == |s.requests| && !t.requests[pk].state.Timeout?
  {
  }

  /** Some continuation times the request out. */
  ghost predicate CanTimeOut(s: State, pk: nat) {
    exists steps :: ValidRun(s, steps) && pk < |Run(s, steps).requests| && Run(s, steps).requests[pk].state.Timeout?
  }

  /** An open request can still be timed out, and announced, if and only if some slot of it
      is pending. */
  lemma TimesOutIff(s: State, pk: nat)
    requires Inv(s) && pk < |s.requests| && s.requests[pk].Open()
    ensures CanTimeOut(s, pk) <==> !NonePending(s.requests[pk])
  {
    if CanTimeOut(s, pk) && NonePending(s.requests[pk]) {
      var steps :| ValidRun(s, steps) && pk < |Run(s, steps).requests| && Run(s, steps).requests[pk].state.Timeout?;
      NeverTimesOut(s, steps, pk);
      assert false;
    }
    if !NonePending(s.requests[pk]) {
      var o :| o in s.requests[pk].parts && s.requests[pk].parts[o].state.Pending?;
      var steps := WaitAndSweep(s, pk, o);
    }
  }

  /** Wait until the slot is overdue, then sweep with every emit going out. */
  lemma WaitAndSweep(s: State, pk: nat, o: string) returns (steps: seq<Step>)
    requires pk < |s.requests| && s.requests[pk].Open() && o in s.requests[pk].parts && s.requests[pk].parts[o].state.Pending?
    ensures ValidRun(s, steps) && pk < |Run(s, steps).requests| && Run(s, steps).requests[pk].state.Timeout?
  {
    var deadline := s.requests[pk].parts[o].deadline;
    var wait := Tick(if deadline <= s.now then 0 else deadline - s.now);
    var t := Apply(s, wait);
    var delivered := |LosingRequests(t.requests, t.now)|;
    assert o in Silent(t.requests[pk], t.now);
    assert Prefix(LosingRequests(t.requests, t.now), delivered) == LosingRequests(t.requests, t.now);
    SweepEffect(t, delivered, pk);
    RunThen(s, [], wait);
    RunThen(s, [] + [wait], Sweep(delivered));
    steps := [] + [wait] + [Sweep(delivered)];
  }

  /** Slots and requests stay in step under a sweep if and only if it completes. */
  lemma AccountedIff(s: State, delivered: nat)
    requires Inv(s) && AllAccounted(s)
    ensures AllAccounted(SweepDeletionDeadlines(s, delivered)) <==> SweepCompletes(s, delivered)
  {
    if SweepCompletes(s, delivered) {
      SweepAccounts(s, delivered);
    } else {
      var todo := LosingRequests(s.requests, s.now);
      var pk := todo[delivered];
      assert pk in todo && pk !in Prefix(todo, delivered);
      LostTimeout(s, delivered, pk);
      assert !Accounted(SweepDeletionDeadlines(s, delivered).requests[pk]);
    }
  }

  /** The slots are flipped before the events go out. A request the sweep did not reach
      because an emit raised keeps its TIMEOUT slots and stays open. A later sweep can still
      time it out if and only if another slot of it was pending inside its deadline. */
  lemma LostTimeout(s: State, delivered: nat, pk: nat)
    requires Inv(s) && pk in LosingRequests(s.requests, s.now) && pk !in Prefix(LosingRequests(s.requests, s.now), delivered)
    ensures var t := SweepDeletionDeadlines(s, delivered);
            && !SweepCompletes(s, delivered) && t.requests[pk].Open() && !Accounted(t.requests[pk])
            && (CanTimeOut(t, pk) <==> HasTimeLeft(s.requests[pk], s.now))
  {
    StepKeeps(s, Sweep(delivered));
    SweepEffect(s, delivered, pk);
    FlippedRow(s.requests[pk], s.now);
    TimesOutIff(SweepDeletionDeadlines(s, delivered), pk);
  }

  /** Some slot is still waited for. */
  ghost predicate HasTimeLeft(r: Request, now: int) {
    exists o :: o in r.parts && r.parts[o].state.Pending? && now < r.parts[o].deadline
  }

  lemma FlippedRow(r: Request, now: int)
    requires Silent(r, now) != {} && r.Open()
    ensures var flipped := FlipRequest(r, now);
            flipped.Open() && !Accounted(flipped) && (NonePending(flipped) <==> !HasTimeLeft(r, now))
  {
    var o :| o in Silent(r, now);
    var flipped := FlipRequest(r, now);
    assert flipped.parts[o].state.TimedOut?;
    if HasTimeLeft(r, now) {
      var p :| p in r.parts && r.parts[p].state.Pending? && now < r.parts[p].deadline;
      assert flipped.parts[p].state.Pending?;
    }
  }
}
