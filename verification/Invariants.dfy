/** What holds in every state the machine can reach. */
module Invariants {
  import opened Common
  import opened Ledger
  import opened Protocol
  import opened Runs
  import opened Micro

  /** A request is DELETED without a waiver only over a full set of receipts, and
      without a closure only if somebody was asked. */
  ghost predicate RequestSound(r: Request) {
    && (forall o :: o in r.parts && r.parts[o].state.Done? ==> r.parts[o].Receipted())
    && (r.state.Deleted? <==> r.completedAt.Some?)
    && (r.waived ==> r.state.Deleted?)
    && (r.state.Deleted? && !r.waived ==> r.AllDone())
    && (r.state.Deleted? && r.head.closure.None? ==> r.parts != map[])
  }

  ghost predicate RowsSound(s: State) {
    forall i :: 0 <= i < |s.requests| ==> RequestSound(s.requests[i])
  }

  /** Source links point strictly backwards and only restore clones have one. */
  ghost predicate ForeignKeys(s: State) {
    && (forall i :: 0 <= i < |s.requests| && s.requests[i].head.closure.Some? ==> s.requests[i].head.closure.value < |s.closures|)
    && (forall i :: 0 <= i < |s.requests| && s.requests[i].head.source.Some? ==>
          s.requests[i].head.source.value < i && s.requests[i].head.origin.RestoreRequeue?)
  }

  /** The unique constraints hold between any two rows. */
  ghost predicate UniqueColumns(s: State) {
    forall i, j :: 0 <= i < j < |s.requests| ==> !Clashes(s.requests[i].head, s.requests[j].head)
  }

  /** Closures never share a correlation id; a request runs for a closure exactly when it carries that closure's id. */
  ghost predicate Correlated(s: State) {
    && (forall c, d :: 0 <= c < d < |s.closures| && s.closures[c].correlation.Some? ==>
          s.closures[c].correlation != s.closures[d].correlation)
    && (forall i, c :: 0 <= i < |s.requests| && 0 <= c < |s.closures| ==>
          (s.closures[c].correlation == Some(s.requests[i].head.correlation) <==> s.requests[i].head.closure == Some(c)))
  }

  /** Request `i` is the DELETED erasure that closed off closure `c`. */
  ghost predicate Certifies(s: State, i: nat, c: nat) {
    && i < |s.requests| && c < |s.closures|
    && s.requests[i].head.closure == Some(c) && s.requests[i].state.Deleted?
    && s.closures[c].deletedAt == s.requests[i].completedAt && s.closures[c].waived == s.requests[i].waived
  }

  ghost predicate ClosureSound(k: Closure) {
    && (k.localErasureDone ==> k.identityErasedAt.Some?)
    && (k.status.ClosureDeleted? ==> k.localErasureDone)
    && (k.status.Grace? || k.status.Cancelled? ==> k.correlation.None? && !k.localErasureDone && k.identityErasedAt.None?)
    && (k.status.Deleting? ==> k.correlation.Some?)
    && (k.status.Cancelled? <==> k.cancelledAt.Some?)
  }

  ghost predicate ClosureRowsSound(s: State) {
    forall c :: 0 <= c < |s.closures| ==> ClosureSound(s.closures[c])
  }

  /** A closure is DELETED exactly through its own DELETED erasure. */
  ghost predicate ClosedByErasure(s: State) {
    && (forall c :: 0 <= c < |s.closures| && s.closures[c].status.ClosureDeleted? ==> exists i: nat :: Certifies(s, i, c))
    && (forall i :: 0 <= i < |s.requests| && s.requests[i].state.Deleted? && s.requests[i].head.closure.Some? ==>
          s.requests[i].head.closure.value < |s.closures| && s.closures[s.requests[i].head.closure.value].status.ClosureDeleted?)
  }

  /** Only the newest closure of a user can be active, and closures are dated in order. */
  ghost predicate ActiveIsNewest(s: State) {
    && (forall c, d :: 0 <= c < d < |s.closures| && s.closures[c].head.user == s.closures[d].head.user ==> !s.closures[c].Active())
    && (forall c, d :: 0 <= c < d < |s.closures| ==> s.closures[c].head.initiatedAt <= s.closures[d].head.initiatedAt)
    && (forall c :: 0 <= c < |s.closures| ==> s.closures[c].head.initiatedAt <= s.now)
  }

  ghost predicate Inv(s: State) {
    RowsSound(s) && ForeignKeys(s) && UniqueColumns(s) && Correlated(s) && ClosureRowsSound(s) && ClosedByErasure(s) && ActiveIsNewest(s)
  }

  // ----- one write at a time -----

  /** No blocker means no owner is waited for, the inventory is sound and somebody claims the subject. */
  lemma NoBlockers(cfg: Config, r: Request)
    ensures Blockers(cfg, r) == [] <==>
              cfg.report.Problems() == [] && cfg.report.OwnersFor(r.head.subjectType) != [] && r.AllDone()
  {
    if r.Unreceipted() == {} {
      forall o | o in r.parts ensures r.parts[o].state.Done? {
        assert o !in r.Unreceipted();
      }
    } else {
      var o :| o in r.Unreceipted();
    }
  }

  lemma RowsKept(s: State, w: Write)
    requires RowsSound(s) && CanWrite(s, w)
    ensures RowsSound(Put(s, w))
  {
    var t := Put(s, w);
    match w
    case Certify(cfg, pk, waived) => NoBlockers(cfg, s.requests[pk]);
    case Fill(pk, parts) =>
      assert RequestSound(s.requests[pk]);
      assert parts.Keys == s.requests[pk].parts.Keys;
      forall o | o in parts && parts[o].state.Done? ensures parts[o].Receipted() {
        assert PartEvolves(s.requests[pk].parts[o], parts[o]);
      }
      if s.requests[pk].AllDone() {
        forall o | o in parts ensures parts[o].state.Done? {
          assert PartEvolves(s.requests[pk].parts[o], parts[o]);
        }
      }
      if s.requests[pk].parts != map[] {
        assert s.requests[pk].parts.Keys != {};
        assert parts != map[];
      }
      assert RequestSound(t.requests[pk]);
    case _ =>
  }

  lemma ForeignKeysKept(s: State, w: Write)
    requires ForeignKeys(s) && CanWrite(s, w)
    ensures ForeignKeys(Put(s, w))
  {
  }

  lemma UniqueKept(s: State, w: Write)
    requires UniqueColumns(s) && CanWrite(s, w)
    ensures UniqueColumns(Put(s, w))
  {
    var t := Put(s, w);
    match w
    case Insert(r) =>
      forall i | 0 <= i < |s.requests| ensures !Clashes(t.requests[i].head, r.head) {
        assert s.requests[i] in s.requests;
      }
    case _ => SameHeads(s, w);
  }

  lemma SameHeads(s: State, w: Write)
    requires CanWrite(s, w) && !w.Insert?
    ensures |Put(s, w).requests| == |s.requests|
    ensures forall i :: 0 <= i < |s.requests| ==> Put(s, w).requests[i].head == s.requests[i].head
  {
  }

  lemma CorrelatedKept(s: State, w: Write)
    requires Correlated(s) && ForeignKeys(s) && CanWrite(s, w)
    ensures Correlated(Put(s, w))
  {
    match w
    case Insert(r) =>
    case Begin(c) =>
    case Advance(c, row, announce) =>
      CorrelatedAdvance(s, Put(s, w), c, row);
    case _ =>
      SameHeads(s, w);
      SameCorrelations(s, w);
      CorrelatedStays(s, Put(s, w));
  }

  lemma CorrelatedAdvance(s: State, t: State, c: nat, row: Closure)
    requires Correlated(s) && ForeignKeys(s) && c < |s.closures| && exists announce :: Advances(s, s.closures[c], row, announce)
    requires t.requests == s.requests && t.closures == s.closures[c := row]
    ensures Correlated(t)
  {
    forall d | 0 <= d < |s.closures| && d != c ensures t.closures[d].correlation != row.correlation {
      if s.closures[c].correlation.Some? {
        assert s.closures[c].correlation != s.closures[d].correlation;
      }
    }
  }

  lemma SameCorrelations(s: State, w: Write)
    requires CanWrite(s, w) && !w.Insert? && !w.Begin? && !w.Advance?
    ensures |Put(s, w).closures| == |s.closures|
    ensures forall c :: 0 <= c < |s.closures| ==> Put(s, w).closures[c].correlation == s.closures[c].correlation
  {
  }

  lemma CorrelatedStays(s: State, t: State)
    requires Correlated(s) && |t.requests| == |s.requests| && |t.closures| == |s.closures|
    requires forall i :: 0 <= i < |s.requests| ==> t.requests[i].head == s.requests[i].head
    requires forall c :: 0 <= c < |s.closures| ==> t.closures[c].correlation == s.closures[c].correlation
    ensures Correlated(t)
  {
  }

  lemma ClosureRowsKept(s: State, w: Write)
    requires ClosureRowsSound(s) && CanWrite(s, w)
    ensures ClosureRowsSound(Put(s, w))
  {
  }

  lemma ClosedKept(s: State, w: Write)
    requires ClosedByErasure(s) && CanWrite(s, w)
    ensures ClosedByErasure(Put(s, w))
  {
    match w
    case Certify(cfg, pk, waived) => CertifyKeepsClosed(s, cfg, pk, waived);
    case _ =>
      WriteEvolves(s, w);
      NothingCertified(s, w);
      ClosedIfUncertified(s, Put(s, w));
  }

  /** Only `Certify` makes a request or a closure DELETED. */
  lemma NothingCertified(s: State, w: Write)
    requires CanWrite(s, w) && !w.Certify?
    ensures forall i :: 0 <= i < |Put(s, w).requests| && Put(s, w).requests[i].state.Deleted? ==>
              i < |s.requests| && s.requests[i].state.Deleted?
    ensures forall c :: 0 <= c < |Put(s, w).closures| && Put(s, w).closures[c].status.ClosureDeleted? ==>
              c < |s.closures| && s.closures[c].status.ClosureDeleted?
  {
  }

  lemma ClosedIfUncertified(s: State, t: State)
    requires ClosedByErasure(s) && Evolves(s, t)
    requires forall i :: 0 <= i < |t.requests| && t.requests[i].state.Deleted? ==> i < |s.requests| && s.requests[i].state.Deleted?
    requires forall c :: 0 <= c < |t.closures| && t.closures[c].status.ClosureDeleted? ==> c < |s.closures| && s.closures[c].status.ClosureDeleted?
    ensures ClosedByErasure(t)
  {
    forall c | 0 <= c < |t.closures| && t.closures[c].status.ClosureDeleted? ensures exists i: nat :: Certifies(t, i, c) {
      var i: nat :| Certifies(s, i, c);
      assert RequestEvolves(s.requests[i], t.requests[i]) && ClosureEvolves(s.closures[c], t.closures[c]);
      assert Certifies(t, i, c);
    }
    forall i | 0 <= i < |t.requests| && t.requests[i].state.Deleted? && t.requests[i].head.closure.Some?
      ensures t.requests[i].head.closure.value < |t.closures|
      ensures t.closures[t.requests[i].head.closure.value].status.ClosureDeleted?
    {
      assert RequestEvolves(s.requests[i], t.requests[i]);
      var c := s.requests[i].head.closure.value;
      assert ClosureEvolves(s.closures[c], t.closures[c]);
    }
  }

  lemma CertifyKeepsClosed(s: State, cfg: Config, pk: nat, waived: bool)
    requires ClosedByErasure(s) && CanWrite(s, Certify(cfg, pk, waived))
    ensures ClosedByErasure(Finalize(s, cfg, pk, waived))
  {
    var t := Finalize(s, cfg, pk, waived);
    var mine := s.requests[pk].head.closure;
    forall c | 0 <= c < |t.closures| && t.closures[c].status.ClosureDeleted? ensures exists i: nat :: Certifies(t, i, c) {
      if mine == Some(c) {
        assert Certifies(t, pk, c);
      } else {
        var i: nat :| Certifies(s, i, c);
        assert Certifies(t, i, c);
      }
    }
    forall i | 0 <= i < |t.requests| && t.requests[i].state.Deleted? && t.requests[i].head.closure.Some?
      ensures t.requests[i].head.closure.value < |t.closures|
      ensures t.closures[t.requests[i].head.closure.value].status.ClosureDeleted?
    {
      assert t.requests[i].head == s.requests[i].head;
    }
  }

  lemma NewestKept(s: State, w: Write)
    requires ActiveIsNewest(s) && CanWrite(s, w)
    ensures ActiveIsNewest(Put(s, w))
  {
    if w.Begin? {
      NewestBegins(s, w.newClosure);
    } else {
      NoneReactivated(s, w);
      NewestStays(s, Put(s, w));
    }
  }

  lemma NewestBegins(s: State, c: Closure)
    requires ActiveIsNewest(s) && CanWrite(s, Begin(c))
    ensures ActiveIsNewest(Put(s, Begin(c)))
  {
    forall d | 0 <= d < |s.closures| && s.closures[d].head.user == c.head.user ensures !s.closures[d].Active() {
      assert s.closures[d] in s.closures;
    }
  }

  lemma NoneReactivated(s: State, w: Write)
    requires CanWrite(s, w) && !w.Begin?
    ensures |Put(s, w).closures| == |s.closures| && s.now <= Put(s, w).now
    ensures forall c :: 0 <= c < |s.closures| ==>
              Put(s, w).closures[c].head == s.closures[c].head && (Put(s, w).closures[c].Active() ==> s.closures[c].Active())
  {
  }

  lemma NewestStays(s: State, t: State)
    requires ActiveIsNewest(s) && |t.closures| == |s.closures| && s.now <= t.now
    requires forall c :: 0 <= c < |s.closures| ==>
               t.closures[c].head == s.closures[c].head && (t.closures[c].Active() ==> s.closures[c].Active())
    ensures ActiveIsNewest(t)
  {
  }

  lemma WriteKeeps(s: State, w: Write)
    requires Inv(s) && CanWrite(s, w)
    ensures Inv(Put(s, w))
  {
    RowsKept(s, w);
    ForeignKeysKept(s, w);
    UniqueKept(s, w);
    CorrelatedKept(s, w);
    ClosureRowsKept(s, w);
    ClosedKept(s, w);
    NewestKept(s, w);
  }

  // ----- whole steps and whole runs -----

  lemma {:induction false} WritesKeep(s: State, ws: seq<Write>)
    requires Inv(s) && CanPutAll(s, ws)
    ensures Inv(PutAll(s, ws))
    decreases |ws|
  {
    if |ws| != 0 {
      WriteKeeps(s, ws[0]);
      WritesKeep(Put(s, ws[0]), ws[1..]);
    }
  }

  /** A step keeps the invariant and takes nothing back. */
  lemma StepKeeps(s: State, step: Step)
    requires Inv(s) && Enabled(s, step)
    ensures Inv(Apply(s, step)) && Evolves(s, Apply(s, step))
  {
    StepWrites(s, step);
    var ws :| CanPutAll(s, ws) && PutAll(s, ws) == Apply(s, step);
    WritesKeep(s, ws);
    WritesEvolve(s, ws);
  }

  lemma {:induction false} RunKeeps(s: State, steps: seq<Step>)
    requires Inv(s) && ValidRun(s, steps)
    ensures Inv(Run(s, steps)) && Evolves(s, Run(s, steps))
    decreases |steps|
  {
    if |steps| == 0 {
      EvolvesReflexive(s);
    } else {
      StepKeeps(s, steps[0]);
      RunKeeps(Apply(s, steps[0]), steps[1..]);
      EvolvesTransitive(s, Apply(s, steps[0]), Run(s, steps));
    }
  }

  /** Every reachable state satisfies the invariant. */
  lemma ReachableIsSound(s: State)
    requires Reachable(s)
    ensures Inv(s)
  {
    var steps :| ValidRun(EMPTY, steps) && Run(EMPTY, steps) == s;
    RunKeeps(EMPTY, steps);
  }
}
