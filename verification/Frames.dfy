/** What a step can reach: the one closure an execution is about, the one request a
    receipt is about. */
module Frames {
  import opened Common
  import opened Ledger
  import opened Protocol
  import opened Runs
  import opened Micro
  import opened Invariants

  /** The request a receipt addresses, if it is the one at `pk`. */
  lemma FoundIsUnique(s: State, pk: nat, correlation: string)
    requires UniqueColumns(s) && pk < |s.requests|
    ensures s.requests[pk].head.correlation == correlation <==> FindByCorrelation(s.requests, correlation) == Some(pk)
  {
  }

  lemma FinalizeFrame(s: State, cfg: Config, pk: nat, c: nat)
    requires pk < |s.requests| && s.requests[pk].head.closure == Some(c)
    ensures var t := MaybeFinalize(s, cfg, pk);
            && |t.requests| == |s.requests| && |t.closures| == |s.closures|
            && (forall i :: 0 <= i < |s.requests| && i != pk ==> t.requests[i] == s.requests[i])
            && (forall d :: 0 <= d < |s.closures| && d != c ==> t.closures[d] == s.closures[d])
  {
  }

  lemma EnsureFrame(s: State, cfg: Config, c: nat, uuid: string, host: Host)
    requires Enabled(s, Execute(cfg, c, uuid, host))
    ensures var (t, pk) := EnsureRequest(MarkDeleting(s, cfg, c, uuid), cfg, c, host);
            && |s.requests| <= |t.requests| <= |s.requests| + 1
            && t.requests[..|s.requests|] == s.requests
            && t.users == s.users && t.holds == s.holds && t.now == s.now
            && |t.closures| == |s.closures|
            && (forall d :: 0 <= d < |s.closures| && d != c ==> t.closures[d] == s.closures[d])
            && (|t.requests| > |s.requests| ==>
                  pk == Some(|s.requests|) &&
                  t.requests[|s.requests|] == NewRequest(t, cfg, AccountErasure(t.closures[c], c), t.closures[c].correlation.value))
  {
  }

  /** `execute_deletion` touches its own closure and that closure's request, nothing else. */
  lemma ExecuteFrame(s: State, cfg: Config, c: nat, uuid: string, host: Host)
    requires Enabled(s, Execute(cfg, c, uuid, host)) && Linked(s)
    ensures var t := ExecuteDeletion(s, cfg, c, uuid, host).0;
            && |t.closures| == |s.closures| && |s.requests| <= |t.requests| && t.now == s.now && t.holds == s.holds
            && (forall i :: 0 <= i < |s.requests| && s.requests[i].head.closure != Some(c) ==> t.requests[i] == s.requests[i])
            && (forall d :: 0 <= d < |s.closures| && d != c ==> t.closures[d] == s.closures[d])
  {
    if !IsHeld(s, s.closures[c].head.user) {
      EnsureFrame(s, cfg, c, uuid, host);
      EnsureWrites(s, cfg, c, uuid, host);
      var (s2, pk) := EnsureRequest(MarkDeleting(s, cfg, c, uuid), cfg, c, host);
      if pk.Some? {
        EraseLocallyFrame(s2, cfg, c, pk.value, host);
        var t := EraseLocally(s2, cfg, c, pk.value, host).0;
        forall i | 0 <= i < |s.requests| && s.requests[i].head.closure != Some(c) ensures t.requests[i] == s.requests[i] {
          assert s2.requests[i] == s2.requests[..|s.requests|][i];
          assert i != pk.value;
        }
      } else {
        forall i | 0 <= i < |s.requests| ensures s2.requests[i] == s.requests[i] {
          assert s2.requests[i] == s2.requests[..|s.requests|][i];
        }
      }
    }
  }

  lemma EraseLocallyFrame(s: State, cfg: Config, c: nat, pk: nat, host: Host)
    requires c < |s.closures| && pk < |s.requests| && s.requests[pk].head.closure == Some(c)
    ensures var t := EraseLocally(s, cfg, c, pk, host).0;
            && |t.requests| == |s.requests| && |t.closures| == |s.closures| && t.now == s.now && t.holds == s.holds
            && (forall i :: 0 <= i < |s.requests| && i != pk ==> t.requests[i] == s.requests[i])
            && (forall d :: 0 <= d < |s.closures| && d != c ==> t.closures[d] == s.closures[d])
  {
    var failed := FailedSections(cfg.providers, host);
    var s1 := WithParts(s, pk, LocalReceipts(s.requests[pk], cfg.report, failed, s.now));
    if failed == [] && EraseUserRow(s1, cfg, c, pk, host).1.Executed? {
      var (users, _) := EraseIdentity(s1.users, s1.closures[c].head.user, host.strategy);
      var s2 := WithClosure(s1.(users := users), c, s1.closures[c].(identityErasedAt := Some(s.now)));
      FinalizeFrame(AnnounceLocal(s2, c), cfg, pk, c);
    }
  }

  lemma ReceiptFrame(s: State, cfg: Config, correlation: string, owner: string, id: string, counts: map<string, int>, pk: nat)
    requires UniqueColumns(s) && pk < |s.requests|
    ensures var t := MarkSectionErased(s, cfg, correlation, owner, id, counts);
            && |t.requests| == |s.requests|
            && t.requests[pk] ==
                 if correlation == s.requests[pk].head.correlation && Awaits(s.requests[pk], owner)
                 then MaybeFinalize(RecordReceipt(s, pk, owner, id, counts), cfg, pk).requests[pk]
                 else s.requests[pk]
  {
    FoundIsUnique(s, pk, correlation);
  }

  lemma OpenFrame(s: State, cfg: Config, a: OpenArgs, uuid: string, emitOk: bool)
    ensures var t := RequestErasure(s, cfg, a, uuid, emitOk).0;
            s.requests <= t.requests && t.closures == s.closures && t.now == s.now
  {
  }

  /** Steps that write no erasure request. */
  predicate NoRequestStep(step: Step) {
    step.Tick? || step.HostWritesUser? || step.PlaceHold? || step.ReleaseHold? || step.Initiate? || step.Cancel?
  }

  lemma NoRequestFrame(s: State, step: Step)
    requires Enabled(s, step) && NoRequestStep(step)
    ensures Apply(s, step).requests == s.requests
  {
  }

  /** A request that runs for no closure changes only by receipts to its correlation id,
      by sweeps that find it overdue and by processors being recorded. */
  lemma EntityFrame(s: State, step: Step, pk: nat)
    requires Inv(s) && Enabled(s, step)
    requires pk < |s.requests| && s.requests[pk].head.closure.None?
    requires !step.Receipt?
    requires step.Sweep? ==> Silent(s.requests[pk], s.now) == {}
    ensures pk < |Apply(s, step).requests|
    ensures var r, r' := s.requests[pk], Apply(s, step).requests[pk];
            r' == r.(obligations := r'.obligations) && (!step.RecordProcessors? ==> r' == r)
  {
    match step
    case Open(cfg, a, uuid, emitOk) => OpenFrame(s, cfg, a, uuid, emitOk);
    case Sweep(delivered) => SweepFrame(s, delivered, pk);
    case Execute(cfg, c, uuid, host) => ExecuteFrame(s, cfg, c, uuid, host);
    case RecordProcessors(_, _, _) =>
    case _ => NoRequestFrame(s, step);
  }

  lemma NothingOverdue(r: Request, now: int)
    requires Silent(r, now) == {}
    ensures FlipRequest(r, now) == r
  {
    forall o | o in r.parts ensures !IsOverdue(r.parts[o], now) {
      assert o !in Silent(r, now);
    }
    assert FlipRequest(r, now).parts == r.parts;
  }

  /** The count is zero exactly when no slot of any request is overdue. */
  lemma {:induction false} CountIsZero(requests: seq<Request>, now: int)
    ensures FlipCount(requests, now) == 0 <==> forall i :: 0 <= i < |requests| ==> Silent(requests[i], now) == {}
  {
    if requests != [] {
      var n := |requests| - 1;
      CountIsZero(requests[..n], now);
      assert forall i :: 0 <= i < n ==> requests[..n][i] == requests[i];
    }
  }

  lemma NobodyLost(requests: seq<Request>, now: int)
    requires FlipCount(requests, now) == 0
    ensures LosingRequests(requests, now) == []
  {
    CountIsZero(requests, now);
    assert forall pk: nat :: pk !in LosingRequests(requests, now);
  }

  /** Row by row, what a sweep does. */
  lemma SweepEffect(s: State, delivered: nat, pk: nat)
    requires pk < |s.requests|
    ensures var t := SweepDeletionDeadlines(s, delivered);
            var flipped := FlipRequest(s.requests[pk], s.now);
            && |t.requests| == |s.requests| && t.closures == s.closures && t.now == s.now
            && t.users == s.users && t.holds == s.holds
            && t.requests[pk] ==
                 if pk in Prefix(LosingRequests(s.requests, s.now), delivered) then flipped.(state := Timeout) else flipped
  {
    var todo := Prefix(LosingRequests(s.requests, s.now), delivered);
    TodoIsLosing(s, delivered);
    CountIsZero(s.requests, s.now);
    if FlipCount(s.requests, s.now) == 0 {
      NothingOverdue(s.requests[pk], s.now);
      assert pk !in todo;
    } else {
      var flipped := s.(requests := FlipAll(s.requests, s.now));
      TimeoutWrites(flipped, s.requests, todo);
      TimeoutLeaves(flipped, s.requests, todo);
    }
  }

  lemma SweepFrame(s: State, delivered: nat, pk: nat)
    requires pk < |s.requests| && Silent(s.requests[pk], s.now) == {}
    ensures |SweepDeletionDeadlines(s, delivered).requests| == |s.requests|
    ensures SweepDeletionDeadlines(s, delivered).requests[pk] == s.requests[pk]
  {
    SweepEffect(s, delivered, pk);
    NothingOverdue(s.requests[pk], s.now);
    TodoIsLosing(s, delivered);
    assert pk !in Prefix(LosingRequests(s.requests, s.now), delivered);
  }

  lemma {:induction false} TimeoutLeaves(s: State, before: seq<Request>, todo: seq<nat>)
    requires |before| == |s.requests| && forall i :: 0 <= i < |todo| ==> todo[i] < |s.requests|
    ensures var t := TimeoutUnits(s, before, todo); t.users == s.users && t.holds == s.holds
  {
    if todo != [] {
      TimeoutLeaves(s, before, todo[..|todo| - 1]);
    }
  }
}
