/** Receipt handlers running side by side, each split where the code is not atomic:
    the conditional UPDATE of the slot, the judgement over what the tables then say, and
    the write of the verdict (orchestrator.py `mark_section_erased`, `_maybe_finalize`). */
module Handlers {
  import opened Common
  import opened Subprocessors
  import opened Ledger
  import opened Protocol
  import opened Runs
  import opened Micro
  import opened Invariants
  import opened Frames
  import opened Delivery

  /** Where a handler for `owner` stands. A handler whose update hit no row is Finished
      at once: it never looks at the request again. */
  datatype Handler =
    | Recorded(owner: string)
    | Judged(owner: string, cfg: Config)
    | Finished(owner: string)

  /** The tables and the handlers of one request. */
  datatype World = World(s: State, pk: nat, handlers: map<nat, Handler>)

  datatype Move =
    | Record(h: nat, owner: string, id: string, counts: map<string, int>)
    | Judge(h: nat, cfg: Config)
    | Write(h: nat)
    | Elsewhere(step: Step)

  ghost predicate CanMove(w: World, m: Move) {
    && w.pk < |w.s.requests|
    && match m
       case Record(h, _, _, _) => h !in w.handlers
       case Judge(h, cfg) => h in w.handlers && w.handlers[h].Recorded? && CanCertify(cfg, w.s.requests[w.pk].head.subjectType)
       case Write(h) => h in w.handlers && w.handlers[h].Judged?
       case Elsewhere(step) => Enabled(w.s, step) && Undisturbed(w.s, step, w.pk)
  }

  ghost function Next(w: World, m: Move): World
    requires CanMove(w, m)
  {
    var r := w.s.requests[w.pk];
    match m
    case Record(h, owner, id, counts) =>
      if Awaits(r, owner)
      then w.(s := RecordReceipt(w.s, w.pk, owner, id, counts), handlers := w.handlers[h := Recorded(owner)])
      else w.(handlers := w.handlers[h := Finished(owner)])
    case Judge(h, cfg) =>
      var owner := w.handlers[h].owner;
      if r.Open() && Blockers(cfg, r) == []
      then w.(handlers := w.handlers[h := Judged(owner, cfg)])
      else w.(handlers := w.handlers[h := Finished(owner)])
    case Write(h) =>
      w.(s := Finalize(w.s, w.handlers[h].cfg, w.pk, false), handlers := w.handlers[h := Finished(w.handlers[h].owner)])
    case Elsewhere(step) =>
      w.(s := Apply(w.s, step))
  }

  ghost predicate ValidMoves(w: World, ms: seq<Move>)
    decreases |ms|
  {
    |ms| == 0 || (CanMove(w, ms[0]) && ValidMoves(Next(w, ms[0]), ms[1..]))
  }

  ghost function After(w: World, ms: seq<Move>): World
    requires ValidMoves(w, ms)
    decreases |ms|
  {
    if |ms| == 0 then w else After(Next(w, ms[0]), ms[1..])
  }

  /** Some handler is between its update and its verdict. */
  ghost predicate Busy(w: World) {
    exists h :: h in w.handlers && !w.handlers[h].Finished?
  }

  /** A full set of receipts is either certified or in the hands of a handler that will look. */
  ghost predicate NothingLost(w: World) {
    && Inv(w.s) && w.pk < |w.s.requests|
    && var r := w.s.requests[w.pk];
    && r.head.closure.None? && r.parts != map[] && !r.waived && (r.Open() || r.state.Deleted?)
    && (r.state.Deleted? ==> r.AllDone())
    && (r.AllDone() ==> r.state.Deleted? || Busy(w))
    && (forall h :: h in w.handlers && w.handlers[h].Judged? ==> r.AllDone())
    && (forall h :: h in w.handlers && w.handlers[h].owner in r.parts ==> r.parts[w.handlers[h].owner].state.Done?)
  }

  lemma VerdictKeepsRows(s: State, cfg: Config, pk: nat)
    requires RowsSound(s) && ForeignKeys(s) && pk < |s.requests|
    requires s.requests[pk].head.closure.None? && s.requests[pk].AllDone() && s.requests[pk].parts != map[]
    ensures RowsSound(Finalize(s, cfg, pk, false)) && ForeignKeys(Finalize(s, cfg, pk, false))
  {
    assert RequestSound(s.requests[pk]);
  }

  /** Writing the same verdict twice does no harm. */
  lemma VerdictKeepsInv(s: State, cfg: Config, pk: nat)
    requires Inv(s) && pk < |s.requests|
    requires s.requests[pk].head.closure.None? && s.requests[pk].AllDone() && s.requests[pk].parts != map[]
    ensures Inv(Finalize(s, cfg, pk, false))
  {
    var t := Finalize(s, cfg, pk, false);
    VerdictKeepsRows(s, cfg, pk);
    assert UniqueColumns(t) && Correlated(t);
    forall c | 0 <= c < |t.closures| && t.closures[c].status.ClosureDeleted? ensures exists i: nat :: Certifies(t, i, c) {
      var i: nat :| Certifies(s, i, c);
      assert Certifies(t, i, c);
    }
    assert ClosedByErasure(t);
  }

  lemma RecordMove(w: World, h: nat, owner: string, id: string, counts: map<string, int>)
    requires NothingLost(w) && CanMove(w, Record(h, owner, id, counts))
    ensures NothingLost(Next(w, Record(h, owner, id, counts)))
  {
    if Awaits(w.s.requests[w.pk], owner) {
      RecordFills(w, h, owner, id, counts);
    } else {
      RecordMisses(w, h, owner);
    }
  }

  lemma RecordFills(w: World, h: nat, owner: string, id: string, counts: map<string, int>)
    requires NothingLost(w) && h !in w.handlers && Awaits(w.s.requests[w.pk], owner)
    ensures NothingLost(w.(s := RecordReceipt(w.s, w.pk, owner, id, counts), handlers := w.handlers[h := Recorded(owner)]))
  {
    var s' := RecordReceipt(w.s, w.pk, owner, id, counts);
    var v := w.(s := s', handlers := w.handlers[h := Recorded(owner)]);
    ReceiptKeepsInv(w.s, w.pk, owner, id, counts);
    assert v.handlers[h] == Recorded(owner) && Busy(v);
  }

  lemma ReceiptKeepsInv(s: State, pk: nat, owner: string, id: string, counts: map<string, int>)
    requires Inv(s) && pk < |s.requests| && Awaits(s.requests[pk], owner)
    ensures Inv(RecordReceipt(s, pk, owner, id, counts))
  {
    WriteKeeps(s, Fill(pk, RecordReceipt(s, pk, owner, id, counts).requests[pk].parts));
  }

  lemma RecordMisses(w: World, h: nat, owner: string)
    requires NothingLost(w) && h !in w.handlers && !Awaits(w.s.requests[w.pk], owner)
    ensures NothingLost(w.(handlers := w.handlers[h := Finished(owner)]))
  {
    var v := w.(handlers := w.handlers[h := Finished(owner)]);
    if Busy(w) {
      var g :| g in w.handlers && !w.handlers[g].Finished?;
      assert v.handlers[g] == w.handlers[g];
    }
  }

  lemma JudgeMove(w: World, h: nat, cfg: Config)
    requires NothingLost(w) && CanMove(w, Judge(h, cfg))
    ensures NothingLost(Next(w, Judge(h, cfg)))
  {
    var v := Next(w, Judge(h, cfg));
    var r := w.s.requests[w.pk];
    NoBlockers(cfg, r);
    if r.Open() && Blockers(cfg, r) == [] {
      assert v.handlers[h] == Judged(w.handlers[h].owner, cfg) && Busy(v);
    }
  }

  lemma WriteMove(w: World, h: nat)
    requires NothingLost(w) && CanMove(w, Write(h))
    ensures NothingLost(Next(w, Write(h)))
  {
    VerdictKeepsInv(w.s, w.handlers[h].cfg, w.pk);
  }

  lemma EvolvesAt(s: State, step: Step, pk: nat)
    requires Inv(s) && Enabled(s, step) && pk < |s.requests|
    ensures pk < |Apply(s, step).requests| && RequestEvolves(s.requests[pk], Apply(s, step).requests[pk])
  {
    StepKeeps(s, step);
  }

  /** An undisturbing step completes the set of receipts only by certifying it. */
  ghost predicate KeepsUp(r: Request, r': Request) {
    !r'.waived && (r'.Open() || r'.state.Deleted?) && (r'.AllDone() && !r.AllDone() ==> r'.state.Deleted?)
  }

  lemma StepElsewhere(s: State, step: Step, pk: nat)
    requires Inv(s) && Enabled(s, step) && pk < |s.requests| && Undisturbed(s, step, pk)
    requires var r := s.requests[pk]; r.head.closure.None? && !r.waived && (r.Open() || r.state.Deleted?)
    ensures pk < |Apply(s, step).requests|
    ensures KeepsUp(s.requests[pk], Apply(s, step).requests[pk])
  {
    if step.Receipt? {
      ReceiptFrame(s, step.cfg, step.correlation, step.owner, step.receiptId, step.counts, pk);
      if step.correlation == s.requests[pk].head.correlation && Awaits(s.requests[pk], step.owner) {
        ReceiptElsewhere(s, step.cfg, pk, step.owner, step.receiptId, step.counts);
      }
    } else {
      EntityFrame(s, step, pk);
    }
  }

  lemma ReceiptElsewhere(s: State, cfg: Config, pk: nat, owner: string, id: string, counts: map<string, int>)
    requires pk < |s.requests| && Awaits(s.requests[pk], owner) && CanCertify(cfg, s.requests[pk].head.subjectType)
    requires var r := s.requests[pk]; r.head.closure.None? && !r.waived && (r.Open() || r.state.Deleted?)
    ensures var r' := MaybeFinalize(RecordReceipt(s, pk, owner, id, counts), cfg, pk).requests[pk];
            !r'.waived && (r'.Open() || r'.state.Deleted?) && (r'.AllDone() ==> r'.state.Deleted?)
  {
    NoBlockers(cfg, RecordReceipt(s, pk, owner, id, counts).requests[pk]);
  }

  lemma ElsewhereMove(w: World, step: Step)
    requires NothingLost(w) && CanMove(w, Elsewhere(step))
    ensures NothingLost(Next(w, Elsewhere(step)))
  {
    StepElsewhere(w.s, step, w.pk);
    EvolvesAt(w.s, step, w.pk);
    StepKeeps(w.s, step);
    var s' := Apply(w.s, step);
    var v := Next(w, Elsewhere(step));
    assert v == World(s', w.pk, w.handlers);
    StillNothingLost(w, s');
  }

  lemma StillNothingLost(w: World, s': State)
    requires NothingLost(w) && Inv(s') && w.pk < |s'.requests|
    requires var r, r' := w.s.requests[w.pk], s'.requests[w.pk];
             RequestEvolves(r, r') && KeepsUp(r, r')
    ensures NothingLost(World(s', w.pk, w.handlers))
  {
    var v := World(s', w.pk, w.handlers);
    var r, r' := w.s.requests[w.pk], s'.requests[w.pk];
    assert RequestSound(r');
    assert Busy(w) ==> Busy(v);
    forall o | o in r.parts && r.parts[o].state.Done? ensures r'.parts[o].state.Done? {
      assert PartEvolves(r.parts[o], r'.parts[o]);
    }
  }

  lemma OneMove(w: World, m: Move)
    requires NothingLost(w) && CanMove(w, m)
    ensures NothingLost(Next(w, m))
  {
    match m
    case Record(h, owner, id, counts) => RecordMove(w, h, owner, id, counts);
    case Judge(h, cfg) => JudgeMove(w, h, cfg);
    case Write(h) => WriteMove(w, h);
    case Elsewhere(step) => ElsewhereMove(w, step);
  }

  lemma {:induction false} MovesLoseNothing(w: World, ms: seq<Move>)
    requires NothingLost(w) && ValidMoves(w, ms)
    ensures NothingLost(After(w, ms))
    decreases |ms|
  {
    if |ms| != 0 {
      OneMove(w, ms[0]);
      MovesLoseNothing(Next(w, ms[0]), ms[1..]);
    }
  }

  /** No completion is lost: however the handlers interleave with each other and with the
      rest of the machine, once each owner of an open entity erasure has had a handler
      and all of them have finished, the erasure is DELETED over every receipt. */
  lemma AllHandlersDone(s: State, pk: nat, ms: seq<Move>)
    requires Inv(s) && pk < |s.requests| && s.requests[pk].head.closure.None?
    requires s.requests[pk].Open() && !s.requests[pk].AllDone()
    requires ValidMoves(World(s, pk, map[]), ms)
    requires var w := After(World(s, pk, map[]), ms);
             && (forall h :: h in w.handlers ==> w.handlers[h].Finished?)
             && (forall o :: o in s.requests[pk].parts ==> exists h :: h in w.handlers && w.handlers[h].owner == o)
    ensures var w := After(World(s, pk, map[]), ms);
            && pk < |w.s.requests| && w.s.requests[pk].parts.Keys == s.requests[pk].parts.Keys
            && w.s.requests[pk].Outcome() == Complete
  {
    var w0 := World(s, pk, map[]);
    var w := After(w0, ms);
    assert RequestSound(s.requests[pk]);
    MovesLoseNothing(w0, ms);
    SameSlots(w0, ms);
    var r := w.s.requests[pk];
    forall o | o in r.parts ensures r.parts[o].state.Done? {
      assert o in s.requests[pk].parts;
    }
    CompleteMeans(r);
  }

  lemma MoveKeepsSlots(w: World, m: Move)
    requires NothingLost(w) && CanMove(w, m)
    ensures Next(w, m).pk == w.pk < |Next(w, m).s.requests|
    ensures Next(w, m).s.requests[w.pk].parts.Keys == w.s.requests[w.pk].parts.Keys
  {
    if m.Elsewhere? {
      EvolvesAt(w.s, m.step, w.pk);
    }
  }

  lemma {:induction false} SameSlots(w: World, ms: seq<Move>)
    requires NothingLost(w) && ValidMoves(w, ms)
    ensures After(w, ms).pk == w.pk < |After(w, ms).s.requests|
    ensures After(w, ms).s.requests[w.pk].parts.Keys == w.s.requests[w.pk].parts.Keys
    decreases |ms|
  {
    if |ms| != 0 {
      OneMove(w, ms[0]);
      MoveKeepsSlots(w, ms[0]);
      SameSlots(Next(w, ms[0]), ms[1..]);
    }
  }

  // ----- what a second verdict may change -----

  /** When the last verdict of the moves was written. */
  ghost function LastVerdict(w: World, ms: seq<Move>): Option<int>
    requires ValidMoves(w, ms)
    decreases |ms|
  {
    if |ms| == 0 then None
    else
      var later := LastVerdict(Next(w, ms[0]), ms[1..]);
      if later.Some? then later else if ms[0].Write? then Some(w.s.now) else None
  }

  /** Nothing but the completion date moves: the same certificate, over the same receipts, with
      every recorded obligation as it was. */
  ghost predicate SameCertificate(r: Request, r': Request) {
    && r'.head == r.head && r'.parts == r.parts && r'.state == r.state && r'.waived == r.waived
    && ObligationsGrow(r.obligations, r'.obligations) && r'.Outcome() == r.Outcome()
  }

  lemma MoveKeepsCertificate(w: World, m: Move)
    requires NothingLost(w) && CanMove(w, m) && w.s.requests[w.pk].state.Deleted?
    ensures Next(w, m).pk == w.pk < |Next(w, m).s.requests|
    ensures SameCertificate(w.s.requests[w.pk], Next(w, m).s.requests[w.pk])
    ensures Next(w, m).s.requests[w.pk].completedAt == if m.Write? then Some(w.s.now) else w.s.requests[w.pk].completedAt
  {
    var r := w.s.requests[w.pk];
    match m
    case Record(h, owner, id, counts) =>
    case Judge(h, cfg) =>
    case Write(h) =>
      RecordedContents(r.obligations, DeclaredPairs(w.handlers[h].cfg.processors, {}), w.s.now, w.s.now);
    case Elsewhere(step) =>
      EvolvesAt(w.s, step, w.pk);
      DoneStaysDone(r, Apply(w.s, step).requests[w.pk]);
  }

  lemma DoneStaysDone(r: Request, r': Request)
    requires RequestEvolves(r, r') && r.state.Deleted? && r.AllDone()
    ensures SameCertificate(r, r') && r'.completedAt == r.completedAt
  {
    forall o | o in r.parts ensures r'.parts[o] == r.parts[o] {
      assert PartEvolves(r.parts[o], r'.parts[o]);
    }
    assert r'.parts == r.parts;
  }

  /** A handler that judged before another one wrote writes the verdict again. The certificate
      stands, as do the obligations anchored at the first verdict; the completion date is
      that of the last verdict written. */
  lemma {:induction false} VerdictsAgree(w: World, ms: seq<Move>)
    requires NothingLost(w) && ValidMoves(w, ms) && w.s.requests[w.pk].state.Deleted?
    ensures After(w, ms).pk == w.pk < |After(w, ms).s.requests|
    ensures var r, r' := w.s.requests[w.pk], After(w, ms).s.requests[w.pk];
            && SameCertificate(r, r')
            && r'.completedAt == if LastVerdict(w, ms).Some? then LastVerdict(w, ms) else r.completedAt
    decreases |ms|
  {
    if |ms| != 0 {
      OneMove(w, ms[0]);
      MoveKeepsCertificate(w, ms[0]);
      VerdictsAgree(Next(w, ms[0]), ms[1..]);
    }
  }
}
