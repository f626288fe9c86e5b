/** Idempotent intake under racing deliveries (orchestrator.py `request_erasure`): the
    pre-check, the insert under the unique constraints and the fallback to the winner are
    separate steps of each call, interleaved with other calls and with the machine. */
module Intake {
  import opened Ledger
  import opened Protocol
  import opened Runs
  import opened Micro
  import opened Invariants
  import opened EventLog

  datatype Call =
    | Checking(args: OpenArgs, cfg: Config)
    | Inserting(args: OpenArgs, cfg: Config)
    | Rejected(args: OpenArgs, cfg: Config, uuid: string)
    | Returned(args: OpenArgs, result: OpenResult)

  datatype World = World(s: State, calls: map<nat, Call>)

  datatype Move =
    | Start(t: nat, args: OpenArgs, cfg: Config)
    | Check(t: nat)
    | Insert(t: nat, cfg: Config, uuid: string, emitOk: bool)
    | Recover(t: nat)
    | Elsewhere(step: Step)

  /** Callers outside `execute_deletion` name neither a closure nor a correlation id; the
      set of subject types does not change while a call runs. */
  ghost predicate CanMove(w: World, m: Move) {
    match m
    case Start(t, a, _) => t !in w.calls && a.closure.None? && a.correlation.None?
    case Check(t) => t in w.calls && w.calls[t].Checking?
    case Insert(t, cfg, uuid, emitOk) =>
      && t in w.calls && w.calls[t].Inserting?
      && cfg.subjectTypes == w.calls[t].cfg.subjectTypes
      && Enabled(w.s, Open(cfg, w.calls[t].args, uuid, emitOk))
    case Recover(t) => t in w.calls && w.calls[t].Rejected?
    case Elsewhere(step) => Enabled(w.s, step)
  }

  ghost function Next(w: World, m: Move): World
    requires CanMove(w, m)
  {
    match m
    case Start(t, a, cfg) =>
      w.(calls := w.calls[t := if a.subjectType in cfg.subjectTypes then Checking(a, cfg) else Returned(a, UnknownSubjectType)])
    case Check(t) =>
      var a := w.calls[t].args;
      var found := FindByKey(w.s.requests, a.idempotencyKey);
      w.(calls := w.calls[t := if a.idempotencyKey != "" && found.Some? then Returned(a, Existing(found.value))
                               else Inserting(a, w.calls[t].cfg)])
    case Insert(t, cfg, uuid, emitOk) =>
      var a := w.calls[t].args;
      var (s', result) := InsertUnit(w.s, cfg, a, uuid, emitOk);
      World(s', w.calls[t := if result.IntegrityError? then Rejected(a, cfg, uuid) else Returned(a, result)])
    case Recover(t) =>
      w.(calls := w.calls[t := Returned(w.calls[t].args, Fallback(w.s, w.calls[t].args.idempotencyKey))])
    case Elsewhere(step) => w.(s := Apply(w.s, step))
  }

  ghost predicate ValidMoves(w: World, ms: seq<Move>)
    decreases |ms|
  {
    |ms| == 0 || (CanMove(w, ms[0]) && ValidMoves(Next(w, ms[0]), ms[1..]))
  }

  ghost function After(w: World, ms: seq<Move>): World
    requires ValidMoves(w, ms)
    decreases |ms|
  {
    if |ms| == 0 then w else After(Next(w, ms[0]), ms[1..])
  }

  // ----- invariant -----

  ghost predicate CallSound(s: State, call: Call) {
    && call.args.closure.None? && call.args.correlation.None?
    && (!call.Returned? ==> call.args.subjectType in call.cfg.subjectTypes)
    && (call.Rejected? ==> ViolatesUnique(s.requests, NewHead(s, call.cfg, call.args, call.uuid)))
    && (call.Rejected? && call.args.source.None? ==> FindByKey(s.requests, call.args.idempotencyKey).Some? && call.args.idempotencyKey != "")
    && (call.Returned? && (call.result.Opened? || call.result.Existing?) ==>
          call.result.pk < |s.requests| && s.requests[call.result.pk].head.idempotencyKey == call.args.idempotencyKey)
    && (call.Returned? && call.args.source.None? ==> !call.result.IntegrityError?)
  }

  ghost predicate WorldSound(w: World) {
    Inv(w.s) && LogExact(w.s) && forall t :: t in w.calls ==> CallSound(w.s, w.calls[t])
  }

  /** Rows stay and keep their heads, so what a call knows remains true. */
  lemma CallStaysSound(s: State, s': State, call: Call)
    requires CallSound(s, call) && Evolves(s, s')
    ensures CallSound(s', call)
  {
    if call.Rejected? {
      ClashStays(s, s', call);
      if call.args.source.None? {
        var pk := FindByKey(s.requests, call.args.idempotencyKey).value;
        assert RequestEvolves(s.requests[pk], s'.requests[pk]);
        assert s'.requests[pk].head.idempotencyKey == call.args.idempotencyKey;
      }
    }
    if call.Returned? && (call.result.Opened? || call.result.Existing?) {
      assert RequestEvolves(s.requests[call.result.pk], s'.requests[call.result.pk]);
    }
  }

  lemma ClashStays(s: State, s': State, call: Call)
    requires call.Rejected? && Evolves(s, s') && ViolatesUnique(s.requests, NewHead(s, call.cfg, call.args, call.uuid))
    ensures ViolatesUnique(s'.requests, NewHead(s', call.cfg, call.args, call.uuid))
  {
    var h, h' := NewHead(s, call.cfg, call.args, call.uuid), NewHead(s', call.cfg, call.args, call.uuid);
    var r :| r in s.requests && Clashes(r.head, h);
    var i :| 0 <= i < |s.requests| && s.requests[i] == r;
    assert RequestEvolves(s.requests[i], s'.requests[i]);
    assert s'.requests[i] in s'.requests && Clashes(s'.requests[i].head, h');
  }

  // ----- refinement -----

  /** A move ends its call exactly as one atomic `request_erasure` with the call's own
      arguments would, made at this moment under the configuration, uuid and emit outcome
      the call itself met; where the call drew no uuid or emitted nothing, for any. */
  ghost predicate AtomicAnswer(w: World, m: Move, s': State, result: OpenResult)
    requires CanMove(w, m)
  {
    match m
    case Start(_, a, cfg) => forall uuid, emitOk :: RequestErasure(w.s, cfg, a, uuid, emitOk) == (s', result)
    case Check(t) =>
      forall uuid, emitOk :: RequestErasure(w.s, w.calls[t].cfg, w.calls[t].args, uuid, emitOk) == (s', result)
    case Insert(t, cfg, uuid, emitOk) => RequestErasure(w.s, cfg, w.calls[t].args, uuid, emitOk) == (s', result)
    case Recover(t) =>
      forall emitOk :: RequestErasure(w.s, w.calls[t].cfg, w.calls[t].args, w.calls[t].uuid, emitOk) == (s', result)
    case Elsewhere(step) => false
  }

  /** Which call a move belongs to. */
  predicate Moves(m: Move, t: nat) {
    !m.Elsewhere? && m.t == t
  }

  /** Refinement of get-or-create: a move either completes its call as one atomic
      `request_erasure` on the tables of that moment, or changes no table; the other
      calls stay where they are. */
  lemma Linearizable(w: World, m: Move, t: nat)
    requires WorldSound(w) && CanMove(w, m) && Moves(m, t)
    ensures var v := Next(w, m);
            && t in v.calls && v.calls.Keys == w.calls.Keys + {t}
            && (forall u :: u in w.calls && u != t ==> v.calls[u] == w.calls[u])
            && (!v.calls[t].Returned? ==> v.s == w.s)
            && (v.calls[t].Returned? ==> AtomicAnswer(w, m, v.s, v.calls[t].result))
  {
    match m
    case Start(_, a, cfg) =>
    case Check(_) => assert CallSound(w.s, w.calls[t]);
    case Insert(_, cfg, uuid, emitOk) =>
      assert CallSound(w.s, w.calls[t]);
      if Next(w, m).calls[t].Returned? {
        InsertIsAtomic(w.s, cfg, w.calls[t].args, uuid, emitOk);
      }
    case Recover(_) => RecoverIsAtomic(w.s, w.calls[t]);
    case Elsewhere(_) =>
  }

  /** A call rejected once would be rejected again, and fall back alike. */
  lemma RecoverIsAtomic(s: State, call: Call)
    requires call.Rejected? && CallSound(s, call)
    ensures forall emitOk :: RequestErasure(s, call.cfg, call.args, call.uuid, emitOk) == (s, Fallback(s, call.args.idempotencyKey))
  {
  }

  /** An insert that is not rejected found no row with its key. */
  lemma InsertIsAtomic(s: State, cfg: Config, a: OpenArgs, uuid: string, emitOk: bool)
    requires a.subjectType in cfg.subjectTypes && !InsertUnit(s, cfg, a, uuid, emitOk).1.IntegrityError?
    ensures RequestErasure(s, cfg, a, uuid, emitOk) == InsertUnit(s, cfg, a, uuid, emitOk)
  {
    var found := FindByKey(s.requests, a.idempotencyKey);
    if a.idempotencyKey != "" && found.Some? {
      assert s.requests[found.value] in s.requests;
      assert Clashes(s.requests[found.value].head, NewHead(s, cfg, a, uuid));
      assert false;
    }
  }

  // ----- preservation -----

  lemma TablesMoveAsTheMachine(w: World, m: Move)
    requires WorldSound(w) && CanMove(w, m)
    ensures Inv(Next(w, m).s) && LogExact(Next(w, m).s) && Evolves(w.s, Next(w, m).s)
  {
    EvolvesReflexive(w.s);
    match m
    case Insert(t, cfg, uuid, emitOk) =>
      assert CallSound(w.s, w.calls[t]);
      var step := Open(cfg, w.calls[t].args, uuid, emitOk);
      if !InsertUnit(w.s, cfg, w.calls[t].args, uuid, emitOk).1.IntegrityError? {
        InsertIsAtomic(w.s, cfg, w.calls[t].args, uuid, emitOk);
        MachineStep(w.s, step);
      }
    case Elsewhere(step) => MachineStep(w.s, step);
    case _ =>
  }

  lemma MachineStep(s: State, step: Step)
    requires Inv(s) && LogExact(s) && Enabled(s, step)
    ensures Inv(Apply(s, step)) && LogExact(Apply(s, step)) && Evolves(s, Apply(s, step))
  {
    StepKeeps(s, step);
    StepWrites(s, step);
    var ws :| CanPutAll(s, ws) && PutAll(s, ws) == Apply(s, step);
    LogWritesKept(s, ws);
  }

  lemma OwnCallSound(w: World, m: Move, t: nat)
    requires WorldSound(w) && CanMove(w, m) && Moves(m, t)
    ensures t in Next(w, m).calls && CallSound(Next(w, m).s, Next(w, m).calls[t])
  {
    var v := Next(w, m);
    match m
    case Start(_, a, cfg) =>
    case Check(_) => assert CallSound(w.s, w.calls[t]);
    case Insert(_, cfg, uuid, emitOk) =>
      assert CallSound(w.s, w.calls[t]);
      if v.calls[t].Rejected? && v.calls[t].args.source.None? {
        RejectedByKey(w.s, cfg, v.calls[t].args, uuid);
      }
    case Recover(_) => assert CallSound(w.s, w.calls[t]);
    case Elsewhere(_) =>
  }

  /** With a fresh uuid and no source, only the key can clash. */
  lemma RejectedByKey(s: State, cfg: Config, a: OpenArgs, uuid: string)
    requires Fresh(s, uuid) && a.correlation.None? && a.source.None?
    requires ViolatesUnique(s.requests, NewHead(s, cfg, a, uuid))
    ensures a.idempotencyKey != "" && FindByKey(s.requests, a.idempotencyKey).Some?
  {
    var r :| r in s.requests && Clashes(r.head, NewHead(s, cfg, a, uuid));
    var i :| 0 <= i < |s.requests| && s.requests[i] == r;
    assert s.requests[i].head.correlation != uuid;
    assert s.requests[i].head.idempotencyKey == a.idempotencyKey;
  }

  lemma OtherCallsStay(w: World, m: Move, t: nat)
    requires CanMove(w, m) && !Moves(m, t) && t in Next(w, m).calls
    ensures t in w.calls && Next(w, m).calls[t] == w.calls[t]
  {
  }

  lemma MoveKeeps(w: World, m: Move)
    requires WorldSound(w) && CanMove(w, m)
    ensures WorldSound(Next(w, m)) && Evolves(w.s, Next(w, m).s)
  {
    TablesMoveAsTheMachine(w, m);
    var v := Next(w, m);
    forall t | t in v.calls ensures CallSound(v.s, v.calls[t]) {
      if Moves(m, t) {
        OwnCallSound(w, m, t);
      } else {
        OtherCallsStay(w, m, t);
        CallStaysSound(w.s, v.s, w.calls[t]);
      }
    }
  }

  lemma {:induction false} MovesKeep(w: World, ms: seq<Move>)
    requires WorldSound(w) && ValidMoves(w, ms)
    ensures WorldSound(After(w, ms)) && Evolves(w.s, After(w, ms).s) && AnswersStand(w, After(w, ms))
    decreases |ms|
  {
    if |ms| == 0 {
      EvolvesReflexive(w.s);
    } else {
      var v := Next(w, ms[0]);
      MoveKeeps(w, ms[0]);
      MoveKeepsAnswers(w, ms[0]);
      MovesKeep(v, ms[1..]);
      EvolvesTransitive(w.s, v.s, After(w, ms).s);
    }
  }

  /** What a call was told is not taken back. */
  ghost predicate AnswersStand(w: World, v: World) {
    forall t :: t in w.calls && w.calls[t].Returned? ==> t in v.calls && v.calls[t] == w.calls[t]
  }

  lemma MoveKeepsAnswers(w: World, m: Move)
    requires CanMove(w, m)
    ensures AnswersStand(w, Next(w, m))
  {
  }

  // ----- what callers may rely on -----

  ghost predicate Answered(w: World, t: nat, key: string, pk: nat) {
    && t in w.calls && w.calls[t].Returned? && w.calls[t].args.idempotencyKey == key
    && (w.calls[t].result == Opened(pk) || w.calls[t].result == Existing(pk))
  }

  lemma FirstWorld(s: State, ms: seq<Move>)
    requires Reachable(s) && ValidMoves(World(s, map[]), ms)
    ensures WorldSound(After(World(s, map[]), ms))
  {
    ReachableIsSound(s);
    LogIsAProjection(s);
    MovesKeep(World(s, map[]), ms);
  }

  /** One request per key, for ever: two calls with the same non-empty key, however they
      raced and whenever they returned, were given the same request; the table holds no
      other with that key, and it was announced once. */
  lemma OneRequestPerKey(s: State, ms: seq<Move>, later: seq<Move>, t: nat, u: nat, key: string, pk: nat, other: nat)
    requires Reachable(s) && ValidMoves(World(s, map[]), ms) && key != ""
    requires ValidMoves(After(World(s, map[]), ms), later)
    requires Answered(After(World(s, map[]), ms), t, key, pk)
    requires Answered(After(After(World(s, map[]), ms), later), u, key, other)
    ensures other == pk
    ensures var s' := After(After(World(s, map[]), ms), later).s;
            && pk < |s'.requests| && s'.requests[pk].head.idempotencyKey == key
            && (forall i :: 0 <= i < |s'.requests| && s'.requests[i].head.idempotencyKey == key ==> i == pk)
            && (forall i :: 0 <= i < |Only(s'.log, IsAnnouncement)| ==>
                  (Only(s'.log, IsAnnouncement)[i].ErasureRequested? && Only(s'.log, IsAnnouncement)[i].request == pk <==> i == pk))
  {
    var w := After(World(s, map[]), ms);
    FirstWorld(s, ms);
    MovesKeep(w, later);
    SameAnswer(After(w, later), t, u, key, pk, other);
    OneAnnouncementEach(After(w, later).s, pk);
  }

  lemma SameAnswer(w: World, t: nat, u: nat, key: string, pk: nat, other: nat)
    requires WorldSound(w) && key != "" && Answered(w, t, key, pk) && Answered(w, u, key, other)
    ensures other == pk && pk < |w.s.requests| && w.s.requests[pk].head.idempotencyKey == key
    ensures forall i :: 0 <= i < |w.s.requests| && w.s.requests[i].head.idempotencyKey == key ==> i == pk
  {
    assert CallSound(w.s, w.calls[t]) && CallSound(w.s, w.calls[u]);
  }

  /** A delivery from another service never surfaces a constraint violation. */
  lemma RacesAreAbsorbed(s: State, ms: seq<Move>, t: nat)
    requires Reachable(s) && ValidMoves(World(s, map[]), ms)
    requires var w := After(World(s, map[]), ms); t in w.calls && w.calls[t].Returned? && w.calls[t].args.source.None?
    ensures !After(World(s, map[]), ms).calls[t].result.IntegrityError?
  {
    FirstWorld(s, ms);
    assert CallSound(After(World(s, map[]), ms).s, After(World(s, map[]), ms).calls[t]);
  }
}
