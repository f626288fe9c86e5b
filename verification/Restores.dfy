/** Re-queue after a backup restore: one clone per erasure, linear histories, and what a
    second run does. */
module Restores {
  import opened Common
  import opened Ledger
  import opened Protocol
  import opened Runs
  import opened Invariants

  // ----- restore histories -----

  /** A request after the requests it re-runs, oldest first. */
  function History(requests: seq<Request>, pk: nat): (h: seq<nat>)
    requires pk < |requests|
    ensures |h| > 0 && h[|h| - 1] == pk
    decreases pk
  {
    var source := requests[pk].head.source;
    if source.Some? && source.value < pk then History(requests, source.value) + [pk] else [pk]
  }

  /** Each request has at most one restore clone. */
  lemma OneCloneEach(s: State, i: nat, j: nat)
    requires Reachable(s) && i < |s.requests| && j < |s.requests|
    requires s.requests[i].head.source.Some? && s.requests[i].head.source == s.requests[j].head.source
    ensures i == j && IsCloneOf(s.requests[i], s.requests[i].head.source.value) && s.requests[i].head.source.value < i
  {
    ReachableIsSound(s);
    SourcesDiffer(s, i, j);
  }

  lemma SourcesDiffer(s: State, i: nat, j: nat)
    requires Inv(s) && i < |s.requests| && j < |s.requests|
    requires s.requests[i].head.source.Some? && s.requests[i].head.source == s.requests[j].head.source
    ensures i == j
  {
  }

  /** Histories run strictly upwards, and each entry re-runs the one before it. */
  lemma {:induction false} HistoryRises(s: State, pk: nat)
    requires ForeignKeys(s) && pk < |s.requests|
    ensures var h := History(s.requests, pk);
            && (forall i :: 0 <= i < |h| ==> h[i] < |s.requests| && h[i] <= pk)
            && (forall i, j :: 0 <= i < j < |h| ==> h[i] < h[j])
            && (forall i :: 0 < i < |h| ==> s.requests[h[i]].head.source == Some(h[i - 1]))
            && s.requests[h[0]].head.source.None?
    decreases pk
  {
    if s.requests[pk].head.source.Some? {
      HistoryRises(s, s.requests[pk].head.source.value);
    }
  }

  /** Two restore histories that share a request are one history seen at two ages: the
      older is a prefix of the younger. */
  lemma {:induction false} HistoriesAreChains(s: State, a: nat, b: nat, shared: nat)
    requires Inv(s) && a <= b < |s.requests|
    requires shared in History(s.requests, a) && shared in History(s.requests, b)
    ensures History(s.requests, a) <= History(s.requests, b)
    decreases b
  {
    HistoryRises(s, a);
    HistoryRises(s, b);
    if a < b {
      var source := s.requests[b].head.source;
      assert source.Some?;
      var p := source.value;
      HistoryRises(s, p);
      assert shared in History(s.requests, p);
      if a <= p {
        HistoriesAreChains(s, a, p, shared);
      } else {
        HistoriesAreChains(s, p, a, shared);
        NoFork(s, p, a, b);
      }
    }
  }

  /** If `p` lies inside the history of `a`, so does the clone of `p`. */
  lemma NoFork(s: State, p: nat, a: nat, b: nat)
    requires Inv(s) && p < a < |s.requests| && b < |s.requests| && s.requests[b].head.source == Some(p)
    requires History(s.requests, p) <= History(s.requests, a)
    ensures b <= a
  {
    HistoryRises(s, a);
    var hp, ha := History(s.requests, p), History(s.requests, a);
    assert ha[|hp| - 1] == p;
    if |hp| < |ha| {
      assert s.requests[ha[|hp|]].head.source == Some(p);
      SourcesDiffer(s, ha[|hp|], b);
    }
  }

  // ----- one run of the command -----

  /** The uuids drawn for `d` outside `used` are still unused. */
  ghost predicate StillFresh(s: State, uuids: nat -> string, used: seq<nat>) {
    forall d: nat :: d !in used ==> Fresh(s, uuids(d))
  }

  /** An open request for the subject of one of the sources, marked with the restore. */
  ghost predicate ReRuns(s: State, r: Request, todo: seq<nat>, restoredFrom: int) {
    && r.state.Erasing? && r.head.origin.RestoreRequeue? && r.head.restoredFrom == Some(restoredFrom)
    && r.head.source.Some? && r.head.source.value in todo && r.head.source.value < |s.requests|
    && SameSubject(r.head, s.requests[r.head.source.value].head) && r.head.closure.None? && r.head.idempotencyKey == ""
  }

  /** Each source of `todo` whose type is declared has its clone; nothing else was added. */
  ghost predicate Cloned(s: State, t: State, cfg: Config, todo: seq<nat>, restoredFrom: int) {
    && Inv(t) && Evolves(s, t) && t.now == s.now
    && (forall i :: 0 <= i < |todo| ==> todo[i] < |s.requests|)
    && (forall i :: 0 <= i < |todo| && s.requests[todo[i]].head.subjectType in cfg.subjectTypes ==> HasClone(t.requests, todo[i]))
    && (forall j :: |s.requests| <= j < |t.requests| ==> ReRuns(s, t.requests[j], todo, restoredFrom))
    && (forall j :: 0 <= j < |s.requests| ==> t.requests[j] == s.requests[j])
  }

  ghost predicate Todo(s: State, todo: seq<nat>) {
    Distinct(todo) && forall i :: 0 <= i < |todo| ==> todo[i] < |s.requests| && !HasClone(s.requests, todo[i])
  }

  ghost predicate Progress(s: State, q: Requeue, cfg: Config, done: seq<nat>, restoredFrom: int, uuids: nat -> string) {
    && !q.aborted && Cloned(s, q.s, cfg, done, restoredFrom) && StillFresh(q.s, uuids, done)
    && q.requeued == |q.s.requests| - |s.requests| && q.requeued + q.skipped == |done|
  }

  lemma {:induction false} RunClones(s: State, cfg: Config, todo: seq<nat>, restoredFrom: int, uuids: nat -> string, emits: nat -> bool)
    requires Inv(s) && FreshDraws(s, uuids) && Todo(s, todo) && forall c: nat :: emits(c)
    ensures Progress(s, RequeueAll(s, cfg, todo, restoredFrom, uuids, emits), cfg, todo, restoredFrom, uuids)
    decreases |todo|
  {
    if |todo| == 0 {
      EvolvesReflexive(s);
    } else {
      var n := |todo| - 1;
      RunClones(s, cfg, todo[..n], restoredFrom, uuids, emits);
      assert todo[n] !in todo[..n] && todo == todo[..n] + [todo[n]];
      ExtendClones(s, RequeueAll(s, cfg, todo[..n], restoredFrom, uuids, emits), cfg, todo[..n], todo[n], restoredFrom, uuids);
    }
  }

  lemma ExtendClones(s: State, q: Requeue, cfg: Config, done: seq<nat>, p: nat, restoredFrom: int, uuids: nat -> string)
    requires Progress(s, q, cfg, done, restoredFrom, uuids) && p < |s.requests| && p !in done && !HasClone(s.requests, p)
    requires forall c: nat, d: nat :: c != d ==> uuids(c) != uuids(d)
    ensures p < |q.s.requests| && Progress(s, RequeueOne(q, cfg, p, restoredFrom, uuids(p), true), cfg, done + [p], restoredFrom, uuids)
  {
    StillNoClone(s, q.s, cfg, done, p, restoredFrom);
    CloneOne(q.s, cfg, p, restoredFrom, uuids(p));
    var u := RequestErasure(q.s, cfg, CloneArgs(q.s.requests[p], p, restoredFrom), uuids(p), true).0;
    assert u.requests[..|q.s.requests|] == q.s.requests;
    OneMoreClone(s, q.s, u, cfg, done, p, restoredFrom);
    OneMoreDraw(q.s, u, cfg, done, p, restoredFrom, uuids);
  }

  lemma OneMoreDraw(t: State, u: State, cfg: Config, done: seq<nat>, p: nat, restoredFrom: int, uuids: nat -> string)
    requires StillFresh(t, uuids, done) && (forall c: nat, d: nat :: c != d ==> uuids(c) != uuids(d))
    requires u.closures == t.closures && p < |t.requests|
    requires u == t || u.requests == t.requests + [NewRequest(t, cfg, CloneArgs(t.requests[p], p, restoredFrom), uuids(p))]
    ensures StillFresh(u, uuids, done + [p])
  {
    forall d: nat | d !in done + [p] ensures Fresh(u, uuids(d)) {
      assert d !in done && d != p;
      assert Fresh(t, uuids(d));
    }
  }

  lemma StillNoClone(s: State, t: State, cfg: Config, done: seq<nat>, p: nat, restoredFrom: int)
    requires Cloned(s, t, cfg, done, restoredFrom) && !HasClone(s.requests, p) && p !in done
    ensures !HasClone(t.requests, p)
  {
    forall j | 0 <= j < |t.requests| ensures !IsCloneOf(t.requests[j], p) {
      if j < |s.requests| {
        assert s.requests[j] in s.requests;
      }
    }
  }

  /** Cloning a source that has no clone succeeds exactly when its type is declared. */
  lemma CloneOne(s: State, cfg: Config, p: nat, restoredFrom: int, uuid: string)
    requires Inv(s) && p < |s.requests| && !HasClone(s.requests, p) && Fresh(s, uuid)
    ensures var a := CloneArgs(s.requests[p], p, restoredFrom);
            var (t, result) := RequestErasure(s, cfg, a, uuid, true);
            if a.subjectType in cfg.subjectTypes
            then result == Opened(|s.requests|) && t.requests == s.requests + [NewRequest(s, cfg, a, uuid)] && t.closures == s.closures && t.now == s.now
            else result == UnknownSubjectType && t == s
    ensures var a := CloneArgs(s.requests[p], p, restoredFrom);
            var t := RequestErasure(s, cfg, a, uuid, true).0;
            Inv(t) && Evolves(s, t)
  {
    NothingClashes(s, cfg, p, restoredFrom, uuid);
    StepKeeps(s, Open(cfg, CloneArgs(s.requests[p], p, restoredFrom), uuid, true));
  }

  /** The clone of a source that has none violates no constraint. */
  lemma NothingClashes(s: State, cfg: Config, p: nat, restoredFrom: int, uuid: string)
    requires p < |s.requests| && !HasClone(s.requests, p) && Fresh(s, uuid)
    ensures !ViolatesUnique(s.requests, NewHead(s, cfg, CloneArgs(s.requests[p], p, restoredFrom), uuid))
  {
    var a := CloneArgs(s.requests[p], p, restoredFrom);
    forall i | 0 <= i < |s.requests| ensures !Clashes(s.requests[i].head, NewHead(s, cfg, a, uuid)) {
      assert s.requests[i] in s.requests && !IsCloneOf(s.requests[i], p);
    }
  }

  lemma OneMoreClone(s: State, t: State, u: State, cfg: Config, done: seq<nat>, p: nat, restoredFrom: int)
    requires Cloned(s, t, cfg, done, restoredFrom) && p < |s.requests| && Inv(u) && Evolves(t, u) && u.now == t.now
    requires if s.requests[p].head.subjectType in cfg.subjectTypes
             then |u.requests| == |t.requests| + 1 && u.requests[..|t.requests|] == t.requests
                  && IsCloneOf(u.requests[|t.requests|], p) && ReRuns(s, u.requests[|t.requests|], [p], restoredFrom)
             else u == t
    ensures Cloned(s, u, cfg, done + [p], restoredFrom)
  {
    EvolvesTransitive(s, t, u);
    var todo := done + [p];
    OlderRowsStay(t, u);
    forall i | 0 <= i < |todo| && s.requests[todo[i]].head.subjectType in cfg.subjectTypes ensures HasClone(u.requests, todo[i]) {
      if i < |done| {
        CloneStays(t, u, done[i]);
      } else {
        assert u.requests[|t.requests|] in u.requests;
      }
    }
  }

  lemma OlderRowsStay(t: State, u: State)
    requires u == t || (|u.requests| == |t.requests| + 1 && u.requests[..|t.requests|] == t.requests)
    ensures |t.requests| <= |u.requests| && forall j :: 0 <= j < |t.requests| ==> u.requests[j] == t.requests[j]
  {
    if u != t {
      assert forall j :: 0 <= j < |t.requests| ==> u.requests[j] == u.requests[..|t.requests|][j];
    }
  }

  // ----- the command is itself a run -----

  /** The last turn, as an equation. */
  lemma LastTurn(s: State, cfg: Config, todo: seq<nat>, restoredFrom: int, uuids: nat -> string, emits: nat -> bool)
    requires todo != [] && forall i :: 0 <= i < |todo| ==> todo[i] < |s.requests|
    ensures var n := |todo| - 1;
            RequeueAll(s, cfg, todo, restoredFrom, uuids, emits) ==
              RequeueOne(RequeueAll(s, cfg, todo[..n], restoredFrom, uuids, emits), cfg, todo[n], restoredFrom, uuids(todo[n]), emits(todo[n]))
  {
  }

  /** A turn adds the clone or nothing. */
  lemma TurnAdds(s: State, cfg: Config, p: nat, restoredFrom: int, uuid: string, emitOk: bool)
    requires p < |s.requests|
    ensures var a := CloneArgs(s.requests[p], p, restoredFrom);
            var t := RequestErasure(s, cfg, a, uuid, emitOk).0;
            t.closures == s.closures && (t == s || t.requests == s.requests + [NewRequest(s, cfg, a, uuid)])
  {
  }

  lemma {:induction false} TurnsAreARun(s: State, cfg: Config, todo: seq<nat>, restoredFrom: int, uuids: nat -> string, emits: nat -> bool)
    returns (steps: seq<Step>)
    requires FreshDraws(s, uuids) && Distinct(todo) && forall i :: 0 <= i < |todo| ==> todo[i] < |s.requests|
    ensures ValidRun(s, steps) && Run(s, steps) == RequeueAll(s, cfg, todo, restoredFrom, uuids, emits).s
    ensures StillFresh(RequeueAll(s, cfg, todo, restoredFrom, uuids, emits).s, uuids, todo)
    decreases |todo|
  {
    if |todo| == 0 {
      steps := [];
    } else {
      var n := |todo| - 1;
      var q := RequeueAll(s, cfg, todo[..n], restoredFrom, uuids, emits);
      var before := TurnsAreARun(s, cfg, todo[..n], restoredFrom, uuids, emits);
      assert todo == todo[..n] + [todo[n]] && todo[n] !in todo[..n];
      LastTurn(s, cfg, todo, restoredFrom, uuids, emits);
      steps := OneMoreTurn(s, q, cfg, before, todo[..n], todo[n], restoredFrom, uuids, emits(todo[n]));
    }
  }

  lemma OneMoreTurn(s: State, q: Requeue, cfg: Config, before: seq<Step>, done: seq<nat>, p: nat, restoredFrom: int,
                    uuids: nat -> string, emitOk: bool) returns (steps: seq<Step>)
    requires ValidRun(s, before) && Run(s, before) == q.s && StillFresh(q.s, uuids, done) && FreshDraws(s, uuids)
    requires p < |q.s.requests| && p !in done
    ensures ValidRun(s, steps) && Run(s, steps) == RequeueOne(q, cfg, p, restoredFrom, uuids(p), emitOk).s
    ensures StillFresh(RequeueOne(q, cfg, p, restoredFrom, uuids(p), emitOk).s, uuids, done + [p])
  {
    if q.aborted {
      steps := before;
    } else {
      var a := CloneArgs(q.s.requests[p], p, restoredFrom);
      assert Fresh(q.s, uuids(p));
      RunThen(s, before, Open(cfg, a, uuids(p), emitOk));
      TurnAdds(q.s, cfg, p, restoredFrom, uuids(p), emitOk);
      OneMoreDraw(q.s, RequestErasure(q.s, cfg, a, uuids(p), emitOk).0, cfg, done, p, restoredFrom, uuids);
      steps := before + [Open(cfg, a, uuids(p), emitOk)];
    }
  }

  /** The command, whatever its emits do, is a run of the machine: what holds of reachable
      states holds after it. */
  lemma RequeueIsARun(s: State, cfg: Config, restoredFrom: int, dryRun: bool, uuids: nat -> string, emits: nat -> bool)
    returns (steps: seq<Step>)
    requires FreshDraws(s, uuids)
    ensures ValidRun(s, steps) && Run(s, steps) == RequeueAfterRestore(s, cfg, restoredFrom, dryRun, uuids, emits).s
  {
    if dryRun {
      steps := [];
    } else {
      var todo := RequeueCandidates(s.requests, restoredFrom - SLACK, |s.requests|);
      steps := TurnsAreARun(s, cfg, todo, restoredFrom, uuids, emits);
    }
  }

  // ----- what the command promises -----

  /** Every erasure completed since the cutoff whose subject type is still declared has a clone. */
  ghost predicate Covered(s: State, cfg: Config, cutoff: int) {
    forall pk :: 0 <= pk < |s.requests| && CompletedSince(s.requests[pk], cutoff) && s.requests[pk].head.subjectType in cfg.subjectTypes ==>
      HasClone(s.requests, pk)
  }

  ghost predicate CompletedSince(r: Request, moment: int) {
    r.state.Deleted? && r.completedAt.Some? && moment <= r.completedAt.value
  }

  /** What the command looks for: erasures completed no earlier than a day before the restore
      point that no restore clone repeats yet. */
  ghost predicate Wanted(s: State, restoredFrom: int, pk: nat)
    requires pk < |s.requests|
  {
    && CompletedSince(s.requests[pk], restoredFrom - 86400)
    && forall j :: 0 <= j < |s.requests| ==> !(s.requests[j].head.origin.RestoreRequeue? && s.requests[j].head.source == Some(pk))
  }

  lemma CandidateMeans(s: State, restoredFrom: int, pk: nat)
    requires pk < |s.requests|
    ensures pk in RequeueCandidates(s.requests, restoredFrom - SLACK, |s.requests|) <==> Wanted(s, restoredFrom, pk)
  {
    if HasClone(s.requests, pk) {
      var r :| r in s.requests && IsCloneOf(r, pk);
      var j :| 0 <= j < |s.requests| && s.requests[j] == r;
    } else {
      forall j | 0 <= j < |s.requests| ensures !(s.requests[j].head.origin.RestoreRequeue? && s.requests[j].head.source == Some(pk)) {
        assert s.requests[j] in s.requests;
      }
    }
  }

  /** A dry run counts them and writes nothing. */
  lemma DryRunCounts(s: State, cfg: Config, restoredFrom: int, uuids: nat -> string, emits: nat -> bool)
    ensures var q := RequeueAfterRestore(s, cfg, restoredFrom, true, uuids, emits);
            && q.s == s && q.skipped == 0 && !q.aborted
            && q.requeued == |AllWanted(s, restoredFrom)|
  {
    CandidatesAreWanted(s, restoredFrom);
  }

  ghost function AllWanted(s: State, restoredFrom: int): set<nat> {
    set pk: nat | pk < |s.requests| && Wanted(s, restoredFrom, pk)
  }

  lemma CandidatesAreWanted(s: State, restoredFrom: int)
    ensures var todo := RequeueCandidates(s.requests, restoredFrom - SLACK, |s.requests|);
            Elements(todo) == AllWanted(s, restoredFrom) && |todo| == |AllWanted(s, restoredFrom)|
  {
    var todo := RequeueCandidates(s.requests, restoredFrom - SLACK, |s.requests|);
    DistinctLength(todo);
    forall pk: nat ensures pk in Elements(todo) <==> pk < |s.requests| && Wanted(s, restoredFrom, pk) {
      if pk < |s.requests| {
        CandidateMeans(s, restoredFrom, pk);
      }
    }
    assert Elements(todo) == AllWanted(s, restoredFrom);
  }

  /** A row the command adds: the subject of a wanted erasure again, marked with the restore. */
  ghost predicate RepeatsWanted(s: State, r: Request, restoredFrom: int) {
    && r.state.Erasing? && r.head.origin.RestoreRequeue? && r.head.restoredFrom == Some(restoredFrom)
    && r.head.source.Some? && r.head.source.value < |s.requests| && Wanted(s, restoredFrom, r.head.source.value)
    && SameSubject(r.head, s.requests[r.head.source.value].head) && r.head.closure.None? && r.head.idempotencyKey == ""
  }

  /** A completed run covers its window: every erasure completed since whose type is still
      declared has a clone, every row added repeats the subject of a wanted one, and the two
      counters add up to what was wanted. */
  lemma RunCovers(s: State, cfg: Config, restoredFrom: int, uuids: nat -> string, emits: nat -> bool)
    requires Inv(s) && FreshDraws(s, uuids) && forall c: nat :: emits(c)
    ensures var q := RequeueAfterRestore(s, cfg, restoredFrom, false, uuids, emits);
            && !q.aborted && Inv(q.s) && Evolves(s, q.s) && NoneCompleted(s, q.s)
            && Covered(q.s, cfg, restoredFrom - 86400)
            && (forall j :: |s.requests| <= j < |q.s.requests| ==> RepeatsWanted(s, q.s.requests[j], restoredFrom))
            && (forall j :: 0 <= j < |s.requests| ==> q.s.requests[j] == s.requests[j])
            && q.requeued == |q.s.requests| - |s.requests| && q.requeued + q.skipped == |AllWanted(s, restoredFrom)|
  {
    var todo := RequeueCandidates(s.requests, restoredFrom - SLACK, |s.requests|);
    assert forall i :: 0 <= i < |todo| ==> todo[i] in todo;
    RunClones(s, cfg, todo, restoredFrom, uuids, emits);
    CandidatesAreWanted(s, restoredFrom);
    var t := RequeueAll(s, cfg, todo, restoredFrom, uuids, emits).s;
    ClonedCovers(s, t, cfg, restoredFrom);
    forall j | |s.requests| <= j < |t.requests| ensures RepeatsWanted(s, t.requests[j], restoredFrom) {
      assert ReRuns(s, t.requests[j], todo, restoredFrom);
      assert t.requests[j].head.source.value in Elements(todo);
    }
  }

  lemma ClonedCovers(s: State, t: State, cfg: Config, restoredFrom: int)
    requires Cloned(s, t, cfg, RequeueCandidates(s.requests, restoredFrom - SLACK, |s.requests|), restoredFrom)
    ensures Covered(t, cfg, restoredFrom - 86400) && NoneCompleted(s, t)
  {
    var todo := RequeueCandidates(s.requests, restoredFrom - SLACK, |s.requests|);
    forall j | |s.requests| <= j < |t.requests| ensures t.requests[j].state.Erasing? {
      assert ReRuns(s, t.requests[j], todo, restoredFrom);
    }
    forall pk: nat | pk < |s.requests| && CompletedSince(t.requests[pk], restoredFrom - 86400) && t.requests[pk].head.subjectType in cfg.subjectTypes
      ensures HasClone(t.requests, pk)
    {
      if HasClone(s.requests, pk) {
        CloneStays(s, t, pk);
      } else {
        assert pk in todo;
        var i :| 0 <= i < |todo| && todo[i] == pk;
        assert HasClone(t.requests, todo[i]);
      }
    }
  }

  lemma CloneStays(s: State, t: State, pk: nat)
    requires Evolves(s, t) && HasClone(s.requests, pk)
    ensures HasClone(t.requests, pk)
  {
    var r :| r in s.requests && IsCloneOf(r, pk);
    var j :| 0 <= j < |s.requests| && s.requests[j] == r;
    assert RequestEvolves(s.requests[j], t.requests[j]);
    assert t.requests[j] in t.requests && IsCloneOf(t.requests[j], pk);
  }

  /** The first source whose subject type is declared. */
  function FirstDeclared(requests: seq<Request>, cfg: Config, todo: seq<nat>): (r: Option<nat>)
    requires forall i :: 0 <= i < |todo| ==> todo[i] < |requests|
    ensures r.Some? ==> r.value in todo && r.value < |requests| && requests[r.value].head.subjectType in cfg.subjectTypes
    ensures r.None? ==> forall p :: p in todo ==> p < |requests| && requests[p].head.subjectType !in cfg.subjectTypes
  {
    if todo == [] then None
    else
      var n := |todo| - 1;
      assert todo == todo[..n] + [todo[n]];
      var earlier := FirstDeclared(requests, cfg, todo[..n]);
      if earlier.Some? then earlier
      else if requests[todo[n]].head.subjectType in cfg.subjectTypes then Some(todo[n]) else None
  }

  /** What the turns up to now have come to: nothing yet; a clone; or an end without one,
      because the very first emit raised. */
  ghost predicate CameTo(s: State, q: Requeue, first: Option<nat>, emits: nat -> bool) {
    if first.None? then q.s == s && !q.aborted
    else if emits(first.value) then |s.requests| < |q.s.requests|
    else q.s == s && q.aborted
  }

  lemma {:induction false} FirstDecides(s: State, cfg: Config, todo: seq<nat>, restoredFrom: int, uuids: nat -> string, emits: nat -> bool)
    requires Inv(s) && FreshDraws(s, uuids) && Todo(s, todo)
    ensures CameTo(s, RequeueAll(s, cfg, todo, restoredFrom, uuids, emits), FirstDeclared(s.requests, cfg, todo), emits)
    decreases |todo|
  {
    if |todo| != 0 {
      var n := |todo| - 1;
      FirstDecides(s, cfg, todo[..n], restoredFrom, uuids, emits);
      var q := RequeueAll(s, cfg, todo[..n], restoredFrom, uuids, emits);
      if FirstDeclared(s.requests, cfg, todo[..n]).None? {
        FirstTurn(q, cfg, todo[n], restoredFrom, uuids(todo[n]), emits(todo[n]));
      } else {
        LaterTurn(q, cfg, todo[n], restoredFrom, uuids(todo[n]), emits(todo[n]));
      }
    }
  }

  lemma FirstTurn(q: Requeue, cfg: Config, p: nat, restoredFrom: int, uuid: string, emitOk: bool)
    requires !q.aborted && p < |q.s.requests| && !HasClone(q.s.requests, p) && Fresh(q.s, uuid)
    ensures var q' := RequeueOne(q, cfg, p, restoredFrom, uuid, emitOk);
            if q.s.requests[p].head.subjectType !in cfg.subjectTypes then q'.s == q.s && !q'.aborted
            else if emitOk then |q.s.requests| < |q'.s.requests|
            else q'.s == q.s && q'.aborted
  {
    NothingClashes(q.s, cfg, p, restoredFrom, uuid);
  }

  lemma LaterTurn(q: Requeue, cfg: Config, p: nat, restoredFrom: int, uuid: string, emitOk: bool)
    requires p < |q.s.requests|
    ensures var q' := RequeueOne(q, cfg, p, restoredFrom, uuid, emitOk);
            |q.s.requests| <= |q'.s.requests| && (q.aborted ==> q' == q)
  {
  }

  /** Exactly when a run adds nothing, whatever its emits do: its window is already covered, or
      its first announcement raises. */
  lemma AddsNothingIff(s: State, cfg: Config, restoredFrom: int, uuids: nat -> string, emits: nat -> bool)
    requires Inv(s) && FreshDraws(s, uuids)
    ensures var q := RequeueAfterRestore(s, cfg, restoredFrom, false, uuids, emits);
            var first := FirstDeclared(s.requests, cfg, RequeueCandidates(s.requests, restoredFrom - SLACK, |s.requests|));
            && (first.None? <==> Covered(s, cfg, restoredFrom - SLACK))
            && (|q.s.requests| == |s.requests| <==> Covered(s, cfg, restoredFrom - SLACK) || !emits(first.value))
  {
    var cutoff := restoredFrom - SLACK;
    var todo := RequeueCandidates(s.requests, cutoff, |s.requests|);
    assert forall i :: 0 <= i < |todo| ==> todo[i] in todo;
    FirstDecides(s, cfg, todo, restoredFrom, uuids, emits);
    CoveredIff(s, cfg, cutoff);
  }

  lemma CoveredIff(s: State, cfg: Config, cutoff: int)
    ensures FirstDeclared(s.requests, cfg, RequeueCandidates(s.requests, cutoff, |s.requests|)).None? <==> Covered(s, cfg, cutoff)
  {
    var todo := RequeueCandidates(s.requests, cutoff, |s.requests|);
    var first := FirstDeclared(s.requests, cfg, todo);
    if first.None? {
      forall pk: nat | pk < |s.requests| && Undone(s.requests[pk], cutoff) && s.requests[pk].head.subjectType in cfg.subjectTypes
        ensures HasClone(s.requests, pk)
      {
        assert pk !in todo;
      }
    }
  }

  /** Nothing is DELETED in `t` that was not DELETED in `s`. */
  ghost predicate NoneCompleted(s: State, t: State) {
    forall pk :: 0 <= pk < |t.requests| && t.requests[pk].state.Deleted? ==> pk < |s.requests| && s.requests[pk].state.Deleted?
  }

  /** A further run over the same or a narrower window adds nothing, unless an erasure
      completed since the earlier run began. */
  lemma SecondRunAddsNothing(s: State, cfg: Config, restoredFrom: int, uuids: nat -> string, emits: nat -> bool,
                             between: seq<Step>, cfg': Config, restoredFrom': int, uuids': nat -> string, emits': nat -> bool)
    requires Inv(s) && FreshDraws(s, uuids) && forall c: nat :: emits(c)
    requires var s1 := RequeueAfterRestore(s, cfg, restoredFrom, false, uuids, emits).s; ValidRun(s1, between)
    requires var s2 := Run(RequeueAfterRestore(s, cfg, restoredFrom, false, uuids, emits).s, between);
             FreshDraws(s2, uuids') && NoneCompleted(s, s2)
    requires restoredFrom <= restoredFrom' && forall x :: x in cfg'.subjectTypes ==> x in cfg.subjectTypes
    ensures var s2 := Run(RequeueAfterRestore(s, cfg, restoredFrom, false, uuids, emits).s, between);
            |RequeueAfterRestore(s2, cfg', restoredFrom', false, uuids', emits').s.requests| == |s2.requests|
  {
    RunCovers(s, cfg, restoredFrom, uuids, emits);
    var s1 := RequeueAfterRestore(s, cfg, restoredFrom, false, uuids, emits).s;
    RunKeeps(s1, between);
    var s2 := Run(s1, between);
    StillCovered(s, s1, s2, cfg, restoredFrom - SLACK, cfg', restoredFrom' - SLACK);
    AddsNothingIff(s2, cfg', restoredFrom', uuids', emits');
  }

  /** As long as nothing completes, a covered window stays covered. */
  lemma StillCovered(s: State, s1: State, s2: State, cfg: Config, cutoff: int, cfg': Config, cutoff': int)
    requires Evolves(s, s1) && Evolves(s1, s2) && Covered(s1, cfg, cutoff) && NoneCompleted(s, s2)
    requires cutoff <= cutoff' && forall x :: x in cfg'.subjectTypes ==> x in cfg.subjectTypes
    ensures Covered(s2, cfg', cutoff')
  {
    forall pk: nat | pk < |s2.requests| && Undone(s2.requests[pk], cutoff') && s2.requests[pk].head.subjectType in cfg'.subjectTypes
      ensures HasClone(s2.requests, pk)
    {
      assert RequestEvolves(s.requests[pk], s1.requests[pk]) && RequestEvolves(s1.requests[pk], s2.requests[pk]);
      assert Undone(s1.requests[pk], cutoff);
      CloneStays(s1, s2, pk);
    }
  }

  /** Without that condition it fails: a clone that has itself been completed is cloned by
      the very same command line. */
  lemma CloneIsClonedAgain(s: State, cfg: Config, restoredFrom: int, uuids: nat -> string, emits: nat -> bool, clone: nat)
    requires Inv(s) && FreshDraws(s, uuids) && forall c: nat :: emits(c)
    requires clone < |s.requests| && s.requests[clone].head.source.Some?
    requires Undone(s.requests[clone], restoredFrom - SLACK) && s.requests[clone].head.subjectType in cfg.subjectTypes
    requires forall j :: clone < j < |s.requests| ==> s.requests[j].head.source != Some(clone)
    ensures |RequeueAfterRestore(s, cfg, restoredFrom, false, uuids, emits).s.requests| > |s.requests|
  {
    forall j | 0 <= j < |s.requests| ensures !IsCloneOf(s.requests[j], clone) {
      if j <= clone && s.requests[j].head.source.Some? {
        assert s.requests[j].head.source.value < j;
      }
    }
    assert !HasClone(s.requests, clone);
    AddsNothingIff(s, cfg, restoredFrom, uuids, emits);
    RunCovers(s, cfg, restoredFrom, uuids, emits);
  }
}
