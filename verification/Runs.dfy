/** The composed machine: every entry point of the orchestrator, the host's own writes
    and the passing of time, in any order and with any configuration at each step. */
module Runs {
  import opened Common
  import opened Subprocessors
  import opened Ledger
  import opened Protocol

  datatype Step =
    | Tick(seconds: nat)
    | HostWritesUser(user: UserId, row: Option<User>)
    | PlaceHold(user: UserId)
    | ReleaseHold(index: nat)
    | Open(cfg: Config, args: OpenArgs, uuid: string, emitOk: bool)
    | Receipt(cfg: Config, correlation: string, owner: string, receiptId: string, counts: map<string, int>)
    | Sweep(delivered: nat)
    | Initiate(cfg: Config, user: UserId, trigger: Trigger, revocation: Revocation, emitOk: bool)
    | Cancel(user: UserId, emitOk: bool)
    | Execute(cfg: Config, closure: nat, uuid: string, host: Host)
    | RecordProcessors(cfg: Config, request: nat, only: set<string>)

  /** A uuid nobody uses yet. */
  ghost predicate Fresh(s: State, uuid: string) {
    && (forall i :: 0 <= i < |s.requests| ==> s.requests[i].head.correlation != uuid)
    && (forall c :: 0 <= c < |s.closures| ==> s.closures[c].correlation != Some(uuid))
  }

  /** A loop draws a new uuid, different from its others, at each turn. */
  ghost predicate FreshDraws(s: State, uuids: nat -> string) {
    && (forall c: nat :: Fresh(s, uuids(c)))
    && (forall c: nat, d: nat :: c != d ==> uuids(c) != uuids(d))
  }

  /** The arguments ask for the subject of an earlier request. */
  predicate Repeats(a: OpenArgs, of: Head) {
    a.subjectType == of.subjectType && a.subjectKey == of.subjectKey && a.workspaceId == of.workspaceId && a.requestedBy == of.requestedBy
  }

  /** What the callers guarantee: only `execute_deletion` passes a closure or a
      correlation id, only the restore command passes a source, with its subject, drawn uuids are new and
      `execute_deletion` is given a closure in GRACE or DELETING. */
  ghost predicate Enabled(s: State, step: Step) {
    match step
    case ReleaseHold(i) => i < |s.holds|
    case Open(_, a, uuid, _) =>
      && a.closure.None? && a.correlation.None? && Fresh(s, uuid)
      && (a.source.Some? ==> a.source.value < |s.requests| && a.origin.RestoreRequeue? && Repeats(a, s.requests[a.source.value].head))
    case Execute(_, c, uuid, _) =>
      && c < |s.closures| && s.closures[c].Active()
      && (s.closures[c].correlation.None? ==> Fresh(s, uuid))
    case RecordProcessors(_, pk, _) => pk < |s.requests|
    case _ => true
  }

  function RecordFor(s: State, cfg: Config, pk: nat, only: set<string>): State
    requires pk < |s.requests|
  {
    var r := s.requests[pk];
    s.(requests := s.requests[pk := r.(obligations :=
      Recorded(r.obligations, DeclaredPairs(cfg.processors, only), Anchor(r.completedAt, s.now), s.now))])
  }

  ghost function Apply(s: State, step: Step): State
    requires Enabled(s, step)
  {
    match step
    case Tick(d) => s.(now := s.now + d)
    case HostWritesUser(u, row) => s.(users := if row.Some? then s.users[u := row.value] else s.users - {u})
    case PlaceHold(u) => s.(holds := s.holds + [Hold(u, None)])
    case ReleaseHold(i) => s.(holds := s.holds[i := s.holds[i].(releasedAt := Some(s.now))])
    case Open(cfg, a, uuid, emitOk) => RequestErasure(s, cfg, a, uuid, emitOk).0
    case Receipt(cfg, correlation, owner, id, counts) => MarkSectionErased(s, cfg, correlation, owner, id, counts)
    case Sweep(delivered) => SweepDeletionDeadlines(s, delivered)
    case Initiate(cfg, u, trigger, revocation, emitOk) => InitiateClosure(s, cfg, u, trigger, revocation, emitOk).0
    case Cancel(u, emitOk) => CancelClosure(s, u, emitOk).0
    case Execute(cfg, c, uuid, host) => ExecuteDeletion(s, cfg, c, uuid, host).0
    case RecordProcessors(cfg, pk, only) => RecordFor(s, cfg, pk, only)
  }

  ghost predicate ValidRun(s: State, steps: seq<Step>)
    decreases |steps|
  {
    |steps| == 0 || (Enabled(s, steps[0]) && ValidRun(Apply(s, steps[0]), steps[1..]))
  }

  ghost function Run(s: State, steps: seq<Step>): State
    requires ValidRun(s, steps)
    decreases |steps|
  {
    if |steps| == 0 then s else Run(Apply(s, steps[0]), steps[1..])
  }

  /** One more step at the end of a run. */
  lemma {:induction false} RunThen(s: State, steps: seq<Step>, step: Step)
    requires ValidRun(s, steps) && Enabled(Run(s, steps), step)
    ensures ValidRun(s, steps + [step]) && Run(s, steps + [step]) == Apply(Run(s, steps), step)
    decreases |steps|
  {
    var longer := steps + [step];
    if |steps| == 0 {
      assert longer == [step] && longer[1..] == [];
    } else {
      RunThen(Apply(s, steps[0]), steps[1..], step);
      assert longer[1..] == steps[1..] + [step] && longer[0] == steps[0];
    }
  }

  /** The states a deployment can be in. */
  ghost predicate Reachable(s: State) {
    exists steps :: ValidRun(EMPTY, steps) && Run(EMPTY, steps) == s
  }

  // ----- what no step ever takes back -----

  ghost predicate PartEvolves(a: Part, b: Part) {
    && b.kind == a.kind && b.deadline == a.deadline
    && (a.state.Done? ==> b == a)
    && (b.state.Pending? ==> a.state.Pending?)
  }

  ghost predicate PartsEvolve(a: map<string, Part>, b: map<string, Part>) {
    a.Keys == b.Keys && forall o :: o in a ==> PartEvolves(a[o], b[o])
  }

  ghost predicate ObligationsGrow(a: map<string, Obligation>, b: map<string, Obligation>) {
    forall p :: p in a ==> p in b && b[p] == a[p]
  }

  ghost predicate RequestEvolves(a: Request, b: Request) {
    && b.head == a.head
    && PartsEvolve(a.parts, b.parts)
    && ObligationsGrow(a.obligations, b.obligations)
    && (!a.Open() ==> b.state == a.state && b.completedAt == a.completedAt && b.waived == a.waived)
    && (b.state.Queued? ==> a.state.Queued?)
  }

  ghost predicate ClosureEvolves(a: Closure, b: Closure) {
    && b.head == a.head
    && (!a.Active() ==> b == a)
    && (a.correlation.Some? ==> b.correlation == a.correlation)
    && (a.localErasureDone ==> b.localErasureDone)
    && (a.identityErasedAt.Some? ==> b.identityErasedAt.Some?)
    && (a.status.Deleting? ==> b.status.Deleting? || b.status.ClosureDeleted?)
  }

  ghost predicate Evolves(s: State, t: State) {
    && s.now <= t.now
    && s.log <= t.log
    && |s.requests| <= |t.requests|
    && (forall i :: 0 <= i < |s.requests| ==> RequestEvolves(s.requests[i], t.requests[i]))
    && |s.closures| <= |t.closures|
    && (forall c :: 0 <= c < |s.closures| ==> ClosureEvolves(s.closures[c], t.closures[c]))
  }

  lemma RequestEvolvesTransitive(a: Request, b: Request, c: Request)
    requires RequestEvolves(a, b) && RequestEvolves(b, c)
    ensures RequestEvolves(a, c)
  {
    forall o | o in a.parts ensures PartEvolves(a.parts[o], c.parts[o]) {
      assert PartEvolves(a.parts[o], b.parts[o]) && PartEvolves(b.parts[o], c.parts[o]);
    }
  }

  lemma EvolvesTransitive(s: State, t: State, u: State)
    requires Evolves(s, t) && Evolves(t, u)
    ensures Evolves(s, u)
  {
    forall i | 0 <= i < |s.requests| ensures RequestEvolves(s.requests[i], u.requests[i]) {
      RequestEvolvesTransitive(s.requests[i], t.requests[i], u.requests[i]);
    }
    forall c | 0 <= c < |s.closures| ensures ClosureEvolves(s.closures[c], u.closures[c]) {
      assert ClosureEvolves(s.closures[c], t.closures[c]) && ClosureEvolves(t.closures[c], u.closures[c]);
    }
  }

  lemma EvolvesReflexive(s: State)
    ensures Evolves(s, s)
  {
  }
}
