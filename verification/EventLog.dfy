/** The outbox is an exact projection of the tables, in every run and with any emit failing. */
module EventLog {
  import opened Common
  import opened Ledger
  import opened Protocol
  import opened Runs
  import opened Micro
  import opened Invariants

  predicate IsAnnouncement(e: Event) { e.ErasureRequested? }
  predicate IsInitiation(e: Event) { e.DeletionInitiated? }

  function Only(log: seq<Event>, p: Event -> bool): seq<Event> {
    if log == [] then [] else Only(log[..|log| - 1], p) + if p(log[|log| - 1]) then [log[|log| - 1]] else []
  }

  /** How many announced cancellations satisfy `p`. */
  function Cancellations(log: seq<Event>, p: Event -> bool): nat {
    if log == [] then 0
    else
      var e := log[|log| - 1];
      Cancellations(log[..|log| - 1], p) + if e.DeletionCancelled? && p(e) then 1 else 0
  }

  /** The requests whose timeout was announced, in order. */
  function TimeoutIds(log: seq<Event>): seq<nat> {
    if log == [] then []
    else TimeoutIds(log[..|log| - 1]) + if log[|log| - 1].ErasureTimeout? then [log[|log| - 1].request] else []
  }

  // ----- what the tables say should have been announced -----

  function Announcements(requests: seq<Request>): seq<Event> {
    seq(|requests|, i requires 0 <= i < |requests| => Announcement(i, requests[i].head))
  }

  function Initiation(h: ClosureHead): Event {
    DeletionInitiated(h.user, h.trigger, h.graceEndsAt)
  }

  function Initiations(closures: seq<Closure>): seq<Event> {
    seq(|closures|, c requires 0 <= c < |closures| => Initiation(closures[c].head))
  }

  function Cancellation(k: Closure): Event {
    DeletionCancelled(k.head.user, k.head.trigger, k.cancelledAt)
  }

  /** How many CANCELLED closures have a cancellation satisfying `p`. */
  function CancelledClosures(closures: seq<Closure>, p: Event -> bool): nat {
    if closures == [] then 0
    else CancelledClosures(closures[..|closures| - 1], p) + CancelBit(closures[|closures| - 1], p)
  }

  function CancelBit(k: Closure, p: Event -> bool): nat {
    if k.status.Cancelled? && p(Cancellation(k)) then 1 else 0
  }

  /** Announcements are the requests and initiations the closures, one for one and in
      order; cancellations are the CANCELLED closures, counted under any condition on their
      payload (so per user, and as multisets); each TIMEOUT request,
      and no other, was announced exactly once; `user.deleted` went out exactly for the
      closures whose local work is recorded as done. */
  ghost predicate LogExact(s: State) {
    && Only(s.log, IsAnnouncement) == Announcements(s.requests)
    && Only(s.log, IsInitiation) == Initiations(s.closures)
    && (forall p: Event -> bool :: Cancellations(s.log, p) == CancelledClosures(s.closures, p))
    && TimeoutsExact(s)
    && DeletionsExact(s)
  }

  ghost predicate TimeoutsExact(s: State) {
    && Distinct(TimeoutIds(s.log))
    && forall pk: nat :: pk in TimeoutIds(s.log) <==> pk < |s.requests| && s.requests[pk].state.Timeout?
  }

  ghost predicate DeletionsExact(s: State) {
    DoneAnnounced(s) && AnnouncedDone(s)
  }

  ghost predicate DoneAnnounced(s: State) {
    forall c :: 0 <= c < |s.closures| && s.closures[c].localErasureDone ==> WasAnnounced(s.log, s.closures[c])
  }

  ghost predicate WasAnnounced(log: seq<Event>, k: Closure) {
    exists i :: 0 <= i < |log| && Announces(log[i], k)
  }

  ghost predicate AnnouncedDone(s: State) {
    forall i :: 0 <= i < |s.log| && s.log[i].UserDeleted? ==> IsDone(s.closures, s.log[i])
  }

  ghost predicate IsDone(closures: seq<Closure>, e: Event) {
    exists c :: 0 <= c < |closures| && closures[c].localErasureDone && Announces(e, closures[c])
  }

  predicate Announces(e: Event, k: Closure) {
    e.UserDeleted? && k.correlation == Some(e.correlation) && e.user == k.head.user
  }

  // ----- appending -----

  lemma {:induction false} OnlyConcat(log: seq<Event>, more: seq<Event>, p: Event -> bool)
    ensures Only(log + more, p) == Only(log, p) + Only(more, p)
  {
    if more == [] {
      assert log + more == log;
    } else {
      var n := |more| - 1;
      assert (log + more)[..|log + more| - 1] == log + more[..n];
      OnlyConcat(log, more[..n], p);
    }
  }

  lemma {:induction false} CancellationsConcat(log: seq<Event>, more: seq<Event>, p: Event -> bool)
    ensures Cancellations(log + more, p) == Cancellations(log, p) + Cancellations(more, p)
  {
    if more == [] {
      assert log + more == log;
    } else {
      var n := |more| - 1;
      assert (log + more)[..|log + more| - 1] == log + more[..n];
      CancellationsConcat(log, more[..n], p);
    }
  }

  lemma {:induction false} TimeoutsConcat(log: seq<Event>, more: seq<Event>)
    ensures TimeoutIds(log + more) == TimeoutIds(log) + TimeoutIds(more)
  {
    if more == [] {
      assert log + more == log;
    } else {
      var n := |more| - 1;
      assert (log + more)[..|log + more| - 1] == log + more[..n];
      TimeoutsConcat(log, more[..n]);
    }
  }

  /** Rewriting one row changes the count by that row alone. */
  lemma {:induction false} CancelledUpdate(closures: seq<Closure>, c: nat, k: Closure, p: Event -> bool)
    requires c < |closures|
    ensures CancelledClosures(closures[c := k], p) + CancelBit(closures[c], p) == CancelledClosures(closures, p) + CancelBit(k, p)
  {
    var n := |closures| - 1;
    if c == n {
      assert closures[c := k][..n] == closures[..n];
    } else {
      assert closures[c := k][..n] == closures[..n][c := k];
      CancelledUpdate(closures[..n], c, k, p);
    }
  }

  /** The events one write appends. */
  ghost function News(s: State, w: Write): seq<Event>
    requires CanWrite(s, w)
  {
    match w
    case Insert(r) => [Announcement(|s.requests|, r.head)]
    case TimeOut(pk, owners) =>
      var h := s.requests[pk].head;
      [ErasureTimeout(pk, h.correlation, h.subjectType, h.subjectKey, owners, h.dueAt)]
    case Begin(c) => [SessionsRevoked(c.head.user), Initiation(c.head)]
    case Advance(c, row, announce) =>
      if announce then [UserDeleted(row.head.user, row.correlation.value, row.head.trigger)] else []
    case CallOff(c) => [Cancellation(s.closures[c].(status := Cancelled, cancelledAt := Some(s.now)))]
    case _ => []
  }

  lemma LogGrows(s: State, w: Write)
    requires CanWrite(s, w)
    ensures Put(s, w).log == s.log + News(s, w)
  {
  }

  /** Which writes tell what; every other write is silent about it. */
  lemma NewsMeans(s: State, w: Write)
    requires CanWrite(s, w)
    ensures !w.Insert? ==> forall i :: 0 <= i < |News(s, w)| ==> !News(s, w)[i].ErasureRequested?
    ensures !w.Begin? ==> forall i :: 0 <= i < |News(s, w)| ==> !News(s, w)[i].DeletionInitiated?
    ensures !w.CallOff? ==> forall i :: 0 <= i < |News(s, w)| ==> !News(s, w)[i].DeletionCancelled?
    ensures !w.TimeOut? ==> forall i :: 0 <= i < |News(s, w)| ==> !News(s, w)[i].ErasureTimeout?
  {
  }

  lemma {:induction false} NoneOf(log: seq<Event>, p: Event -> bool)
    requires forall i :: 0 <= i < |log| ==> !p(log[i])
    ensures Only(log, p) == []
  {
    if log != [] {
      NoneOf(log[..|log| - 1], p);
    }
  }

  lemma OneEvent(e: Event, p: Event -> bool)
    ensures Only([e], p) == if p(e) then [e] else []
  {
    assert [e][..0] == [];
    assert Only([], p) == [];
  }

  lemma TwoEvents(e: Event, f: Event, p: Event -> bool)
    ensures Only([e, f], p) == (if p(e) then [e] else []) + (if p(f) then [f] else [])
  {
    assert [e, f][..1] == [e];
    OneEvent(e, p);
  }

  // ----- announcements: one write at a time -----

  lemma AnnouncementsKept(s: State, w: Write)
    requires CanWrite(s, w) && Only(s.log, IsAnnouncement) == Announcements(s.requests)
    ensures Only(Put(s, w).log, IsAnnouncement) == Announcements(Put(s, w).requests)
  {
    LogGrows(s, w);
    OnlyConcat(s.log, News(s, w), IsAnnouncement);
    if w.Insert? {
      OneEvent(Announcement(|s.requests|, w.newRequest.head), IsAnnouncement);
      OneMoreAnnouncement(s.requests, w.newRequest);
    } else {
      NewsMeans(s, w);
      NoneOf(News(s, w), IsAnnouncement);
      SameHeads(s, w);
      SameAnnouncements(s.requests, Put(s, w).requests);
    }
  }

  lemma OneMoreAnnouncement(requests: seq<Request>, r: Request)
    ensures Announcements(requests + [r]) == Announcements(requests) + [Announcement(|requests|, r.head)]
  {
  }

  lemma SameAnnouncements(requests: seq<Request>, requests': seq<Request>)
    requires |requests'| == |requests| && forall i :: 0 <= i < |requests| ==> requests'[i].head == requests[i].head
    ensures Announcements(requests') == Announcements(requests)
  {
  }

  // ----- initiations -----

  lemma InitiationsKept(s: State, w: Write)
    requires CanWrite(s, w) && Only(s.log, IsInitiation) == Initiations(s.closures)
    ensures Only(Put(s, w).log, IsInitiation) == Initiations(Put(s, w).closures)
  {
    LogGrows(s, w);
    OnlyConcat(s.log, News(s, w), IsInitiation);
    if w.Begin? {
      var h := w.newClosure.head;
      TwoEvents(SessionsRevoked(h.user), Initiation(h), IsInitiation);
      OneMoreInitiation(s.closures, w.newClosure);
    } else {
      NewsMeans(s, w);
      NoneOf(News(s, w), IsInitiation);
      SameClosureHeads(s, w);
      SameInitiations(s.closures, Put(s, w).closures);
    }
  }

  lemma OneMoreInitiation(closures: seq<Closure>, c: Closure)
    ensures Initiations(closures + [c]) == Initiations(closures) + [Initiation(c.head)]
  {
  }

  lemma SameInitiations(closures: seq<Closure>, closures': seq<Closure>)
    requires |closures'| == |closures| && forall c :: 0 <= c < |closures| ==> closures'[c].head == closures[c].head
    ensures Initiations(closures') == Initiations(closures)
  {
  }

  lemma SameClosureHeads(s: State, w: Write)
    requires CanWrite(s, w) && !w.Begin?
    ensures |Put(s, w).closures| == |s.closures|
    ensures forall c :: 0 <= c < |s.closures| ==> Put(s, w).closures[c].head == s.closures[c].head
  {
  }

  // ----- cancellations -----

  lemma CancellationsKept(s: State, w: Write, p: Event -> bool)
    requires CanWrite(s, w) && Cancellations(s.log, p) == CancelledClosures(s.closures, p)
    ensures Cancellations(Put(s, w).log, p) == CancelledClosures(Put(s, w).closures, p)
  {
    CancellationsGrow(s, w, p);
    if w.CallOff? {
      CallOffCounts(s, w.closure, p);
    } else {
      OtherNews(s, w, p);
      NoneCancelled(s, w, p);
    }
  }

  lemma CancellationsGrow(s: State, w: Write, p: Event -> bool)
    requires CanWrite(s, w)
    ensures Cancellations(Put(s, w).log, p) == Cancellations(s.log, p) + Cancellations(News(s, w), p)
  {
    LogGrows(s, w);
    CancellationsConcat(s.log, News(s, w), p);
  }

  lemma OtherNews(s: State, w: Write, p: Event -> bool)
    requires CanWrite(s, w) && !w.CallOff?
    ensures Cancellations(News(s, w), p) == 0
  {
    NewsMeans(s, w);
    NoCancellation(News(s, w), p);
  }

  lemma CallOffCounts(s: State, c: nat, p: Event -> bool)
    requires CanWrite(s, CallOff(c))
    ensures CancelledClosures(Put(s, CallOff(c)).closures, p) == CancelledClosures(s.closures, p) + Cancellations(News(s, CallOff(c)), p)
  {
    var k := s.closures[c].(status := Cancelled, cancelledAt := Some(s.now));
    CancelledUpdate(s.closures, c, k, p);
    OneCancellation(k, p);
  }

  lemma OneCancellation(k: Closure, p: Event -> bool)
    requires k.status.Cancelled?
    ensures Cancellations([Cancellation(k)], p) == CancelBit(k, p)
  {
    assert [Cancellation(k)][..0] == [];
    assert Cancellations([], p) == 0;
  }

  lemma NoneCancelled(s: State, w: Write, p: Event -> bool)
    requires CanWrite(s, w) && !w.CallOff?
    ensures CancelledClosures(Put(s, w).closures, p) == CancelledClosures(s.closures, p)
  {
    match w
    case Begin(c) => BeginCounts(s.closures, c, p);
    case Advance(c, row, _) => CancelledUpdate(s.closures, c, row, p);
    case Certify(cfg, pk, waived) => CertifyCounts(s, cfg, pk, waived, p);
    case _ =>
  }

  lemma BeginCounts(closures: seq<Closure>, c: Closure, p: Event -> bool)
    requires c.status.Grace?
    ensures CancelledClosures(closures + [c], p) == CancelledClosures(closures, p)
  {
    assert (closures + [c])[..|closures|] == closures;
  }

  lemma CertifyCounts(s: State, cfg: Config, pk: nat, waived: bool, p: Event -> bool)
    requires pk < |s.requests| && GateOpen(s, s.requests[pk])
    ensures CancelledClosures(Finalize(s, cfg, pk, waived).closures, p) == CancelledClosures(s.closures, p)
  {
    var c := s.requests[pk].head.closure;
    if c.Some? {
      CancelledUpdate(s.closures, c.value, CloseOff(s.closures, c.value, s.now, waived)[c.value], p);
    }
  }

  lemma {:induction false} NoCancellation(log: seq<Event>, p: Event -> bool)
    requires forall i :: 0 <= i < |log| ==> !log[i].DeletionCancelled?
    ensures Cancellations(log, p) == 0
  {
    if log != [] {
      NoCancellation(log[..|log| - 1], p);
    }
  }

  // ----- timeouts -----

  lemma {:induction false} NoTimeout(log: seq<Event>)
    requires forall i :: 0 <= i < |log| ==> !log[i].ErasureTimeout?
    ensures TimeoutIds(log) == []
  {
    if log != [] {
      NoTimeout(log[..|log| - 1]);
    }
  }

  lemma TimeoutsKept(s: State, w: Write)
    requires CanWrite(s, w) && TimeoutsExact(s)
    ensures TimeoutsExact(Put(s, w))
  {
    LogGrows(s, w);
    TimeoutsConcat(s.log, News(s, w));
    if w.TimeOut? {
      OneTimeout(News(s, w));
      TimeoutAnnounced(s, w.request, Put(s, w));
    } else {
      NewsMeans(s, w);
      NoTimeout(News(s, w));
      NoneTimedOut(s, w);
      SameTimeouts(s, Put(s, w));
    }
  }

  lemma OneTimeout(log: seq<Event>)
    requires |log| == 1 && log[0].ErasureTimeout?
    ensures TimeoutIds(log) == [log[0].request]
  {
    assert log[..0] == [];
    assert TimeoutIds([]) == [];
  }

  lemma TimeoutAnnounced(s: State, pk: nat, t: State)
    requires TimeoutsExact(s) && pk < |s.requests| && s.requests[pk].Open()
    requires t.requests == s.requests[pk := s.requests[pk].(state := Timeout)]
    requires TimeoutIds(t.log) == TimeoutIds(s.log) + [pk]
    ensures TimeoutsExact(t)
  {
    DistinctAppend(TimeoutIds(s.log), pk);
  }

  lemma SameTimeouts(s: State, t: State)
    requires TimeoutsExact(s) && TimeoutIds(t.log) == TimeoutIds(s.log) + []
    requires forall pk: nat :: pk < |t.requests| ==>
               (t.requests[pk].state.Timeout? <==> pk < |s.requests| && s.requests[pk].state.Timeout?)
    requires |s.requests| <= |t.requests|
    ensures TimeoutsExact(t)
  {
    assert TimeoutIds(t.log) == TimeoutIds(s.log);
  }

  lemma NoneTimedOut(s: State, w: Write)
    requires CanWrite(s, w) && !w.TimeOut?
    ensures |s.requests| <= |Put(s, w).requests|
    ensures forall pk: nat :: pk < |Put(s, w).requests| ==>
              (Put(s, w).requests[pk].state.Timeout? <==> pk < |s.requests| && s.requests[pk].state.Timeout?)
  {
  }

  // ----- local erasures -----

  lemma DoneAnnouncedKept(s: State, w: Write)
    requires CanWrite(s, w) && DoneAnnounced(s)
    ensures DoneAnnounced(Put(s, w))
  {
    var t := Put(s, w);
    WriteEvolves(s, w);
    forall c | 0 <= c < |t.closures| && t.closures[c].localErasureDone ensures WasAnnounced(t.log, t.closures[c]) {
      if c < |s.closures| && s.closures[c].localErasureDone {
        assert ClosureEvolves(s.closures[c], t.closures[c]);
        StillAnnounced(s.log, t.log, s.closures[c], t.closures[c]);
      } else {
        NewlyDone(s, w, c);
      }
    }
  }

  lemma StillAnnounced(log: seq<Event>, log': seq<Event>, k: Closure, k': Closure)
    requires log <= log' && ClosureEvolves(k, k') && WasAnnounced(log, k)
    ensures WasAnnounced(log', k')
  {
    var i :| 0 <= i < |log| && Announces(log[i], k);
    assert Announces(log'[i], k');
  }

  lemma AnnouncedDoneKept(s: State, w: Write)
    requires CanWrite(s, w) && AnnouncedDone(s)
    ensures AnnouncedDone(Put(s, w))
  {
    var t := Put(s, w);
    WriteEvolves(s, w);
    forall i | 0 <= i < |t.log| && t.log[i].UserDeleted? ensures IsDone(t.closures, t.log[i]) {
      if i < |s.log| {
        assert t.log[i] == s.log[i];
        var c :| 0 <= c < |s.closures| && s.closures[c].localErasureDone && Announces(s.log[i], s.closures[c]);
        assert ClosureEvolves(s.closures[c], t.closures[c]);
        assert t.closures[c].localErasureDone && Announces(t.log[i], t.closures[c]);
      } else {
        NewlyAnnounced(s, w, i);
      }
    }
  }

  lemma NewlyAnnounced(s: State, w: Write, i: nat)
    requires CanWrite(s, w) && |s.log| <= i < |Put(s, w).log| && Put(s, w).log[i].UserDeleted?
    ensures w.Advance? && Put(s, w).closures[w.closure].localErasureDone && Announces(Put(s, w).log[i], Put(s, w).closures[w.closure])
  {
  }

  lemma NewlyDone(s: State, w: Write, c: nat)
    requires CanWrite(s, w) && c < |Put(s, w).closures| && Put(s, w).closures[c].localErasureDone
    requires c < |s.closures| ==> !s.closures[c].localErasureDone
    ensures |Put(s, w).log| == |s.log| + 1 && Announces(Put(s, w).log[|s.log|], Put(s, w).closures[c])
  {
  }

  // ----- whole runs -----

  lemma LogWriteKept(s: State, w: Write)
    requires CanWrite(s, w) && LogExact(s)
    ensures LogExact(Put(s, w))
  {
    AnnouncementsKept(s, w);
    InitiationsKept(s, w);
    forall p: Event -> bool ensures Cancellations(Put(s, w).log, p) == CancelledClosures(Put(s, w).closures, p) {
      CancellationsKept(s, w, p);
    }
    TimeoutsKept(s, w);
    DoneAnnouncedKept(s, w);
    AnnouncedDoneKept(s, w);
  }

  lemma {:induction false} LogWritesKept(s: State, ws: seq<Write>)
    requires LogExact(s) && CanPutAll(s, ws)
    ensures LogExact(PutAll(s, ws))
    decreases |ws|
  {
    if |ws| != 0 {
      LogWriteKept(s, ws[0]);
      LogWritesKept(Put(s, ws[0]), ws[1..]);
    }
  }

  lemma {:induction false} LogRunKept(s: State, steps: seq<Step>)
    requires Inv(s) && LogExact(s) && ValidRun(s, steps)
    ensures LogExact(Run(s, steps))
    decreases |steps|
  {
    if |steps| != 0 {
      StepWrites(s, steps[0]);
      var ws :| CanPutAll(s, ws) && PutAll(s, ws) == Apply(s, steps[0]);
      LogWritesKept(s, ws);
      StepKeeps(s, steps[0]);
      LogRunKept(Apply(s, steps[0]), steps[1..]);
    }
  }

  /** In every reachable state the log says exactly what the tables say. */
  lemma LogIsAProjection(s: State)
    requires Reachable(s)
    ensures LogExact(s)
  {
    var steps :| ValidRun(EMPTY, steps) && Run(EMPTY, steps) == s;
    EmptyIsExact();
    LogRunKept(EMPTY, steps);
  }

  lemma EmptyIsExact()
    ensures Inv(EMPTY) && LogExact(EMPTY)
  {
  }

  // ----- what each event says -----

  /** An event says of its row what the row says, field by field. */
  ghost predicate Truthful(s: State, e: Event) {
    match e
    case ErasureRequested(pk, correlation, subjectType, subjectKey, workspaceId, requestedBy, origin, dueAt) =>
      && pk < |s.requests|
      && var h := s.requests[pk].head;
      && correlation == h.correlation && subjectType == h.subjectType && subjectKey == h.subjectKey
      && workspaceId == h.workspaceId && requestedBy == h.requestedBy && origin == h.origin && dueAt == h.dueAt
    case ErasureTimeout(pk, correlation, subjectType, subjectKey, owners, dueAt) =>
      && pk < |s.requests| && s.requests[pk].state.Timeout? && owners != {}
      && var h := s.requests[pk].head;
      && correlation == h.correlation && subjectType == h.subjectType && subjectKey == h.subjectKey && dueAt == h.dueAt
    case DeletionInitiated(user, trigger, graceEndsAt) =>
      exists c: nat :: IsClosureOf(s, c, user) && s.closures[c].head.trigger == trigger && s.closures[c].head.graceEndsAt == graceEndsAt
    case DeletionCancelled(user, trigger, cancelledAt) =>
      exists c: nat :: IsClosureOf(s, c, user) && s.closures[c].head.trigger == trigger
                  && s.closures[c].status.Cancelled? && s.closures[c].cancelledAt == cancelledAt
    case UserDeleted(user, correlation, trigger) =>
      exists c: nat :: IsClosureOf(s, c, user) && s.closures[c].head.trigger == trigger
                  && s.closures[c].localErasureDone && s.closures[c].correlation == Some(correlation)
    case SessionsRevoked(user) =>
      exists c: nat :: IsClosureOf(s, c, user)
  }

  ghost predicate IsClosureOf(s: State, c: nat, user: UserId) {
    c < |s.closures| && s.closures[c].head.user == user
  }

  ghost predicate AllTruthful(s: State) {
    forall i :: 0 <= i < |s.log| ==> Truthful(s, s.log[i])
  }

  /** Each request is announced by one event, and by one only. */
  ghost predicate AnnouncedOnce(s: State) {
    && (forall i, j :: 0 <= i < j < |s.log| && s.log[i].ErasureRequested? && s.log[j].ErasureRequested? ==>
          s.log[i].request != s.log[j].request)
    && (forall pk: nat :: pk < |s.requests| ==> IsAnnounced(s.log, pk))
  }

  ghost predicate IsAnnounced(log: seq<Event>, pk: nat) {
    exists i :: 0 <= i < |log| && log[i].ErasureRequested? && log[i].request == pk
  }

  lemma StaysTruthful(s: State, t: State, e: Event)
    requires Truthful(s, e) && Evolves(s, t)
    ensures Truthful(t, e)
  {
    match e
    case ErasureRequested(pk, _, _, _, _, _, _, _) => assert RequestEvolves(s.requests[pk], t.requests[pk]);
    case ErasureTimeout(pk, _, _, _, _, _) => assert RequestEvolves(s.requests[pk], t.requests[pk]);
    case DeletionInitiated(user, trigger, graceEndsAt) =>
      var c: nat :| IsClosureOf(s, c, user) && s.closures[c].head.trigger == trigger && s.closures[c].head.graceEndsAt == graceEndsAt;
      assert ClosureEvolves(s.closures[c], t.closures[c]);
      assert IsClosureOf(t, c, user);
    case DeletionCancelled(user, trigger, cancelledAt) =>
      var c: nat :| IsClosureOf(s, c, user) && s.closures[c].head.trigger == trigger
               && s.closures[c].status.Cancelled? && s.closures[c].cancelledAt == cancelledAt;
      assert ClosureEvolves(s.closures[c], t.closures[c]);
      assert IsClosureOf(t, c, user);
    case UserDeleted(user, correlation, trigger) =>
      var c: nat :| IsClosureOf(s, c, user) && s.closures[c].head.trigger == trigger
               && s.closures[c].localErasureDone && s.closures[c].correlation == Some(correlation);
      assert ClosureEvolves(s.closures[c], t.closures[c]);
      assert IsClosureOf(t, c, user);
    case SessionsRevoked(user) =>
      var c: nat :| IsClosureOf(s, c, user);
      assert ClosureEvolves(s.closures[c], t.closures[c]);
      assert IsClosureOf(t, c, user);
  }

  lemma NewsAreTrue(s: State, w: Write)
    requires CanWrite(s, w)
    ensures forall i :: 0 <= i < |News(s, w)| ==> Truthful(Put(s, w), News(s, w)[i])
  {
    var t := Put(s, w);
    match w
    case Begin(c) =>
      assert IsClosureOf(t, |s.closures|, c.head.user);
    case Advance(c, row, announce) =>
      assert IsClosureOf(t, c, row.head.user);
    case CallOff(c) =>
      assert IsClosureOf(t, c, s.closures[c].head.user);
    case _ =>
  }

  lemma WriteKeepsTruth(s: State, w: Write)
    requires CanWrite(s, w) && AllTruthful(s)
    ensures AllTruthful(Put(s, w))
  {
    var t := Put(s, w);
    WriteEvolves(s, w);
    LogGrows(s, w);
    NewsAreTrue(s, w);
    forall i | 0 <= i < |t.log| ensures Truthful(t, t.log[i]) {
      if i < |s.log| {
        StaysTruthful(s, t, s.log[i]);
      } else {
        assert t.log[i] == News(s, w)[i - |s.log|];
      }
    }
  }

  lemma WriteAnnouncesOnce(s: State, w: Write)
    requires CanWrite(s, w) && AllTruthful(s) && AnnouncedOnce(s)
    ensures AnnouncedOnce(Put(s, w))
  {
    var t := Put(s, w);
    LogGrows(s, w);
    NewsMeans(s, w);
    forall i | 0 <= i < |s.log| && s.log[i].ErasureRequested? ensures s.log[i].request < |s.requests| {
      assert Truthful(s, s.log[i]);
    }
    forall pk: nat | pk < |t.requests| ensures IsAnnounced(t.log, pk) {
      if w.Insert? && pk == |s.requests| {
        assert t.log[|s.log|].request == pk;
      } else {
        if !w.Insert? {
          SameHeads(s, w);
        }
        assert IsAnnounced(s.log, pk);
        var i :| 0 <= i < |s.log| && s.log[i].ErasureRequested? && s.log[i].request == pk;
        assert t.log[i] == s.log[i];
      }
    }
  }

  ghost predicate LogTrue(s: State) {
    AllTruthful(s) && AnnouncedOnce(s)
  }

  lemma {:induction false} WritesKeepTruth(s: State, ws: seq<Write>)
    requires LogTrue(s) && CanPutAll(s, ws)
    ensures LogTrue(PutAll(s, ws))
    decreases |ws|
  {
    if |ws| != 0 {
      WriteKeepsTruth(s, ws[0]);
      WriteAnnouncesOnce(s, ws[0]);
      WritesKeepTruth(Put(s, ws[0]), ws[1..]);
    }
  }

  lemma {:induction false} RunKeepsTruth(s: State, steps: seq<Step>)
    requires Inv(s) && LogTrue(s) && ValidRun(s, steps)
    ensures LogTrue(Run(s, steps))
    decreases |steps|
  {
    if |steps| != 0 {
      StepWrites(s, steps[0]);
      var ws :| CanPutAll(s, ws) && PutAll(s, ws) == Apply(s, steps[0]);
      WritesKeepTruth(s, ws);
      StepKeeps(s, steps[0]);
      RunKeepsTruth(Apply(s, steps[0]), steps[1..]);
    }
  }

  /** In every reachable state every event of the log says of its row exactly what the row
      says, and each request has one announcement and no more. */
  lemma EventsSayWhatRowsSay(s: State)
    requires Reachable(s)
    ensures AllTruthful(s) && AnnouncedOnce(s)
  {
    var steps :| ValidRun(EMPTY, steps) && Run(EMPTY, steps) == s;
    EmptyIsExact();
    RunKeepsTruth(EMPTY, steps);
  }

  /** A request was announced once, under its own id and correlation. */
  lemma OneAnnouncementEach(s: State, pk: nat)
    requires LogExact(s) && pk < |s.requests|
    ensures Only(s.log, IsAnnouncement)[pk] == Announcement(pk, s.requests[pk].head)
    ensures forall i :: 0 <= i < |Only(s.log, IsAnnouncement)| && Only(s.log, IsAnnouncement)[i].request == pk ==> i == pk
  {
    assert Announcements(s.requests)[pk] == Announcement(pk, s.requests[pk].head);
  }

  /** Per user, as many cancellations went out as there are CANCELLED closures. */
  lemma CancelledPerUser(s: State, user: UserId)
    requires LogExact(s)
    ensures Cancellations(s.log, (e: Event) => e.DeletionCancelled? && e.user == user) ==
              |CancelledOf(s.closures, user)|
  {
    CountedCancelled(s.closures, user, (e: Event) => e.DeletionCancelled? && e.user == user);
  }

  lemma {:induction false} CountedCancelled(closures: seq<Closure>, user: UserId, p: Event -> bool)
    requires forall k :: k in closures ==> (p(Cancellation(k)) <==> k.head.user == user)
    ensures CancelledClosures(closures, p) == |CancelledOf(closures, user)|
  {
    if closures == [] {
      assert CancelledOf(closures, user) == {};
    } else {
      var n := |closures| - 1;
      assert closures[n] in closures;
      CountedCancelled(closures[..n], user, p);
      OneMoreCancelled(closures, user);
    }
  }

  lemma OneMoreCancelled(closures: seq<Closure>, user: UserId)
    requires closures != []
    ensures var last := closures[|closures| - 1];
            |CancelledOf(closures, user)| ==
              |CancelledOf(closures[..|closures| - 1], user)| + if last.status.Cancelled? && last.head.user == user then 1 else 0
  {
    var n := |closures| - 1;
    var all, earlier := CancelledOf(closures, user), CancelledOf(closures[..n], user);
    forall c: nat ensures c in all && c != n <==> c in earlier {
      if c < n {
        assert closures[..n][c] == closures[c];
      }
    }
    assert all - {n} == earlier;
  }

  /** The CANCELLED closures of a user. */
  ghost function CancelledOf(closures: seq<Closure>, user: UserId): set<nat> {
    set c: nat | c < |closures| && closures[c].status.Cancelled? && closures[c].head.user == user
  }
}
