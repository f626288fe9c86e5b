/** Every step of the machine is a sequence of table writes, and each invariant is
    proved once per kind of write. */
module Micro {
  import opened Common
  import opened Inventory
  import opened Subprocessors
  import opened Ledger
  import opened Protocol
  import opened Runs

  datatype Write =
    | Surroundings(now: int, users: map<UserId, User>, holds: seq<Hold>)
    | Insert(newRequest: Request)
    | Fill(request: nat, parts: map<string, Part>)
    | Certify(cfg: Config, request: nat, waived: bool)
    | TimeOut(request: nat, owners: set<string>)
    | Oblige(request: nat, obligations: map<string, Obligation>)
    | Begin(newClosure: Closure)
    | Advance(closure: nat, row: Closure, announce: bool)
    | CallOff(closure: nat)

  /** Filling slots: those that become DONE carry a receipt, those that do not only time out. */
  ghost predicate Fills(a: map<string, Part>, b: map<string, Part>) {
    && PartsEvolve(a, b)
    && forall o :: o in a && b[o] != a[o] ==> b[o].Receipted() || (a[o].state.Pending? && b[o] == a[o].(state := TimedOut))
  }

  ghost predicate NewRow(s: State, r: Request) {
    && r.state.Erasing? && r.completedAt.None? && !r.waived && r.obligations == map[]
    && (forall o :: o in r.parts ==> r.parts[o].state.Pending?)
    && !ViolatesUnique(s.requests, r.head)
    && r.head.requestedAt == s.now
    && (r.head.source.Some? ==>
          && r.head.source.value < |s.requests| && r.head.origin.RestoreRequeue?
          && SameSubject(r.head, s.requests[r.head.source.value].head))
    && (r.head.closure.None? ==> forall c :: 0 <= c < |s.closures| ==> s.closures[c].correlation != Some(r.head.correlation))
    && (r.head.closure.Some? ==>
          && r.head.closure.value < |s.closures|
          && s.closures[r.head.closure.value].correlation == Some(r.head.correlation)
          && s.closures[r.head.closure.value].status.Deleting?
          && AccountOf(r.head, s.closures[r.head.closure.value].head))
  }

  ghost predicate Advances(s: State, a: Closure, b: Closure, announce: bool) {
    && a.Active() && b.status.Deleting?
    && b.head == a.head && b.waived == a.waived && b.deletedAt == a.deletedAt && b.cancelledAt == a.cancelledAt
    && b.correlation.Some? && (a.correlation.Some? ==> b.correlation == a.correlation)
    && (a.correlation.None? ==> Fresh(s, b.correlation.value))
    && (a.identityErasedAt.Some? ==> b.identityErasedAt.Some?)
    && (announce ==> b.localErasureDone && b.identityErasedAt.Some?)
    && (!announce ==> b.localErasureDone == a.localErasureDone)
  }

  ghost predicate CanWrite(s: State, w: Write) {
    match w
    case Surroundings(now, _, _) => s.now <= now
    case Insert(r) => NewRow(s, r)
    case Fill(pk, parts) => pk < |s.requests| && Fills(s.requests[pk].parts, parts)
    case Certify(cfg, pk, waived) =>
      && pk < |s.requests| && s.requests[pk].Open() && GateOpen(s, s.requests[pk])
      && (waived <==> Blockers(cfg, s.requests[pk]) != [])
      && (s.requests[pk].head.closure.None? ==> s.requests[pk].parts != map[])
    case TimeOut(pk, owners) => pk < |s.requests| && s.requests[pk].Open() && owners != {}
    case Oblige(pk, obligations) => pk < |s.requests| && ObligationsGrow(s.requests[pk].obligations, obligations)
    case Begin(c) =>
      && c.status.Grace? && c.correlation.None? && !c.localErasureDone && c.identityErasedAt.None?
      && c.cancelledAt.None? && c.head.initiatedAt == s.now && !HasActiveClosure(s, c.head.user)
    case Advance(c, row, announce) => c < |s.closures| && Advances(s, s.closures[c], row, announce)
    case CallOff(c) => c < |s.closures| && s.closures[c].status.Grace?
  }

  ghost function Put(s: State, w: Write): State
    requires CanWrite(s, w)
  {
    match w
    case Surroundings(now, users, holds) => s.(now := now, users := users, holds := holds)
    case Insert(r) => s.(requests := s.requests + [r], log := s.log + [Announcement(|s.requests|, r.head)])
    case Fill(pk, parts) => WithParts(s, pk, parts)
    case Certify(cfg, pk, waived) => Finalize(s, cfg, pk, waived)
    case TimeOut(pk, owners) =>
      var h := s.requests[pk].head;
      s.(requests := s.requests[pk := s.requests[pk].(state := Timeout)],
         log := s.log + [ErasureTimeout(pk, h.correlation, h.subjectType, h.subjectKey, owners, h.dueAt)])
    case Oblige(pk, obligations) => s.(requests := s.requests[pk := s.requests[pk].(obligations := obligations)])
    case Begin(c) =>
      s.(closures := s.closures + [c],
         log := s.log + [SessionsRevoked(c.head.user), DeletionInitiated(c.head.user, c.head.trigger, c.head.graceEndsAt)])
    case Advance(c, row, announce) =>
      s.(closures := s.closures[c := row],
         log := s.log + if announce then [UserDeleted(row.head.user, row.correlation.value, row.head.trigger)] else [])
    case CallOff(c) =>
      var row := s.closures[c].(status := Cancelled, cancelledAt := Some(s.now));
      s.(closures := s.closures[c := row],
         log := s.log + [DeletionCancelled(row.head.user, row.head.trigger, row.cancelledAt)])
  }

  ghost predicate CanPutAll(s: State, ws: seq<Write>)
    decreases |ws|
  {
    |ws| == 0 || (CanWrite(s, ws[0]) && CanPutAll(Put(s, ws[0]), ws[1..]))
  }

  ghost function PutAll(s: State, ws: seq<Write>): State
    requires CanPutAll(s, ws)
    decreases |ws|
  {
    if |ws| == 0 then s else PutAll(Put(s, ws[0]), ws[1..])
  }

  /** `t` comes out of `s` by writes. */
  ghost predicate Writes(s: State, t: State) {
    exists ws :: CanPutAll(s, ws) && PutAll(s, ws) == t
  }

  lemma NoWrites(s: State)
    ensures Writes(s, s)
  {
    var ws: seq<Write> := [];
    assert CanPutAll(s, ws) && PutAll(s, ws) == s;
  }

  lemma OneWrite(s: State, w: Write)
    requires CanWrite(s, w)
    ensures Writes(s, Put(s, w))
  {
    var ws := [w];
    assert ws[1..] == [];
    assert CanPutAll(Put(s, w), ws[1..]) && PutAll(Put(s, w), ws[1..]) == Put(s, w);
    assert CanPutAll(s, ws) && PutAll(s, ws) == Put(s, w);
  }

  lemma {:induction false} WritesThen(s: State, ws: seq<Write>, t: State, vs: seq<Write>)
    requires CanPutAll(s, ws) && PutAll(s, ws) == t && CanPutAll(t, vs)
    ensures CanPutAll(s, ws + vs) && PutAll(s, ws + vs) == PutAll(t, vs)
    decreases |ws|
  {
    if |ws| == 0 {
      assert ws + vs == vs;
    } else {
      WritesThen(Put(s, ws[0]), ws[1..], t, vs);
      assert (ws + vs)[1..] == ws[1..] + vs;
    }
  }

  lemma WritesTransitive(s: State, t: State, u: State)
    requires Writes(s, t) && Writes(t, u)
    ensures Writes(s, u)
  {
    var ws :| CanPutAll(s, ws) && PutAll(s, ws) == t;
    var vs :| CanPutAll(t, vs) && PutAll(t, vs) == u;
    WritesThen(s, ws, t, vs);
  }

  lemma ThenWrite(s: State, t: State, w: Write)
    requires Writes(s, t) && CanWrite(t, w)
    ensures Writes(s, Put(t, w))
  {
    OneWrite(t, w);
    WritesTransitive(s, t, Put(t, w));
  }

  // ----- every step is a sequence of writes -----

  lemma {:induction false} SlotsOf(owners: seq<DataOwner>, now: int)
    ensures Slots(owners, now).Keys == set o | o in owners :: o.name
    ensures forall o :: o in Slots(owners, now) ==> Slots(owners, now)[o].state.Pending?
  {
    if owners != [] {
      var n := |owners| - 1;
      SlotsOf(owners[..n], now);
      assert owners == owners[..n] + [owners[n]];
    }
  }

  lemma OpenWrites(s: State, cfg: Config, a: OpenArgs, uuid: string, emitOk: bool)
    requires a.correlation.None? ==> Fresh(s, uuid)
    requires a.source.Some? ==> a.source.value < |s.requests| && a.origin.RestoreRequeue? && Repeats(a, s.requests[a.source.value].head)
    requires a.closure.Some? <==> a.correlation.Some?
    requires a.closure.Some? ==>
               && a.closure.value < |s.closures|
               && s.closures[a.closure.value].correlation == a.correlation
               && s.closures[a.closure.value].status.Deleting?
               && AccountOf(NewHead(s, cfg, a, uuid), s.closures[a.closure.value].head)
    ensures Writes(s, RequestErasure(s, cfg, a, uuid, emitOk).0)
  {
    var r := NewRequest(s, cfg, a, uuid);
    SlotsOf(cfg.report.OwnersFor(a.subjectType), s.now);
    NoWrites(s);
    if RequestErasure(s, cfg, a, uuid, emitOk).1.Opened? {
      OneWrite(s, Insert(r));
    }
  }

  lemma FinalizeWrites(s: State, cfg: Config, pk: nat)
    requires pk < |s.requests|
    requires s.requests[pk].head.closure.None? ==> s.requests[pk].parts != map[]
    ensures Writes(s, MaybeFinalize(s, cfg, pk))
  {
    NoWrites(s);
    var r := s.requests[pk];
    if MaybeFinalize(s, cfg, pk) != s {
      OneWrite(s, Certify(cfg, pk, Blockers(cfg, r) != []));
    }
  }

  /** A receipt is one write, to a request that has a slot. */
  lemma ReceiptFills(s: State, pk: nat, owner: string, id: string, counts: map<string, int>)
    requires pk < |s.requests| && Awaits(s.requests[pk], owner)
    ensures var t := RecordReceipt(s, pk, owner, id, counts);
            var w := Fill(pk, t.requests[pk].parts);
            t.requests[pk].parts != map[] && CanWrite(s, w) && Put(s, w) == t
  {
    var r := s.requests[pk];
    var text := ReceiptText(id, owner, r.head.correlation);
    assert |owner + ":" + r.head.correlation| > 0 && text != "";
    var parts := RecordReceipt(s, pk, owner, id, counts).requests[pk].parts;
    assert owner in parts && parts[owner].Receipted() && parts.Keys == r.parts.Keys;
    assert forall o :: o in parts && o != owner ==> parts[o] == r.parts[o];
  }

  lemma ReceiptWrites(s: State, cfg: Config, correlation: string, owner: string, id: string, counts: map<string, int>)
    ensures Writes(s, MarkSectionErased(s, cfg, correlation, owner, id, counts))
  {
    NoWrites(s);
    var found := FindByCorrelation(s.requests, correlation);
    if found.Some? && Awaits(s.requests[found.value], owner) {
      var t := RecordReceipt(s, found.value, owner, id, counts);
      ReceiptFills(s, found.value, owner, id, counts);
      OneWrite(s, Fill(found.value, t.requests[found.value].parts));
      FinalizeWrites(t, cfg, found.value);
      WritesTransitive(s, t, MaybeFinalize(t, cfg, found.value));
    }
  }

  /** The flips, one request at a time. */
  lemma {:induction false} FlipWrites(s: State, n: nat)
    requires n <= |s.requests|
    ensures Writes(s, s.(requests := FlipAll(s.requests[..n], s.now) + s.requests[n..]))
  {
    if n == 0 {
      assert FlipAll(s.requests[..0], s.now) + s.requests[0..] == s.requests;
      NoWrites(s);
    } else {
      var t := s.(requests := FlipAll(s.requests[..n - 1], s.now) + s.requests[n - 1..]);
      FlipWrites(s, n - 1);
      var w := Fill(n - 1, FlipRequest(s.requests[n - 1], s.now).parts);
      assert t.requests[n - 1] == s.requests[n - 1];
      ThenWrite(s, t, w);
      assert Put(t, w).requests == FlipAll(s.requests[..n], s.now) + s.requests[n..];
    }
  }

  lemma {:induction false} TimeoutWrites(s: State, before: seq<Request>, todo: seq<nat>)
    requires |before| == |s.requests| && Distinct(todo)
    requires forall i :: 0 <= i < |todo| ==>
               todo[i] < |s.requests| && s.requests[todo[i]].Open()
               && before[todo[i]].head == s.requests[todo[i]].head && Silent(before[todo[i]], s.now) != {}
    ensures Writes(s, TimeoutUnits(s, before, todo))
    ensures var t := TimeoutUnits(s, before, todo);
            && t.now == s.now && t.closures == s.closures
            && forall pk: nat :: pk < |s.requests| ==>
                 t.requests[pk] == if pk in todo then s.requests[pk].(state := Timeout) else s.requests[pk]
  {
    NoWrites(s);
    if todo != [] {
      var n := |todo| - 1;
      TimeoutWrites(s, before, todo[..n]);
      assert todo == todo[..n] + [todo[n]];
      assert todo[n] !in todo[..n];
      ThenWrite(s, TimeoutUnits(s, before, todo[..n]), TimeOut(todo[n], Silent(before[todo[n]], s.now)));
    }
  }

  lemma SweepWrites(s: State, delivered: nat)
    ensures Writes(s, SweepDeletionDeadlines(s, delivered))
  {
    NoWrites(s);
    var flipped := s.(requests := FlipAll(s.requests, s.now));
    FlipWrites(s, |s.requests|);
    assert s.requests[..|s.requests|] == s.requests && FlipAll(s.requests, s.now) + [] == FlipAll(s.requests, s.now);
    var todo := Prefix(LosingRequests(s.requests, s.now), delivered);
    TodoIsLosing(s, delivered);
    TimeoutWrites(flipped, s.requests, todo);
    WritesTransitive(s, flipped, TimeoutUnits(flipped, s.requests, todo));
  }

  lemma TodoIsLosing(s: State, delivered: nat)
    ensures var todo := Prefix(LosingRequests(s.requests, s.now), delivered);
            && Distinct(todo)
            && forall i :: 0 <= i < |todo| ==>
                 todo[i] < |s.requests| && s.requests[todo[i]].Open() && Silent(s.requests[todo[i]], s.now) != {}
  {
    var all := LosingRequests(s.requests, s.now);
    var todo := Prefix(all, delivered);
    forall i | 0 <= i < |todo|
      ensures todo[i] < |s.requests| && s.requests[todo[i]].Open() && Silent(s.requests[todo[i]], s.now) != {}
    {
      assert todo[i] == all[i] && all[i] in all;
    }
  }

  lemma InitiateWrites(s: State, cfg: Config, user: UserId, trigger: Trigger, revocation: Revocation, emitOk: bool)
    ensures Writes(s, InitiateClosure(s, cfg, user, trigger, revocation, emitOk).0)
  {
    NoWrites(s);
    if !IsHeld(s, user) && !HasActiveClosure(s, user) {
      ClosureUnitWrites(s, cfg, user, trigger, revocation, emitOk);
    }
  }

  lemma ClosureUnitWrites(s: State, cfg: Config, user: UserId, trigger: Trigger, revocation: Revocation, emitOk: bool)
    requires !HasActiveClosure(s, user)
    ensures Writes(s, ClosureUnit(s, cfg, user, trigger, revocation, emitOk).0)
  {
    NoWrites(s);
    if ClosureUnit(s, cfg, user, trigger, revocation, emitOk).1.Initiated? {
      var w := Begin(NewClosure(s, cfg, user, trigger));
      OneWrite(s, w);
      ThenWrite(s, Put(s, w), Surroundings(s.now, SetActive(s.users, user, false), s.holds));
    }
  }

  lemma CancelWrites(s: State, user: UserId, emitOk: bool)
    ensures Writes(s, CancelClosure(s, user, emitOk).0)
  {
    NoWrites(s);
    var found := FindGrace(s.closures, user);
    if found.Some? && emitOk {
      OneWrite(s, CallOff(found.value));
      ThenWrite(s, Put(s, CallOff(found.value)), Surroundings(s.now, SetActive(s.users, user, true), s.holds));
    }
  }

  lemma LocalReceiptsFill(r: Request, report: RegistryReport, failed: seq<string>, now: int)
    ensures Fills(r.parts, LocalReceipts(r, report, failed, now))
  {
  }

  /** The closure a request runs for is found through its correlation id. */
  ghost predicate Linked(s: State) {
    forall i, c :: 0 <= i < |s.requests| && 0 <= c < |s.closures| ==>
      s.closures[c].correlation == Some(s.requests[i].head.correlation) ==> s.requests[i].head.closure == Some(c)
  }

  lemma EraseUserRowWrites(s: State, cfg: Config, c: nat, pk: nat, host: Host)
    requires c < |s.closures| && pk < |s.requests|
    requires s.closures[c].status.Deleting? && s.closures[c].correlation.Some?
    requires s.requests[pk].head.closure == Some(c)
    ensures Writes(s, EraseUserRow(s, cfg, c, pk, host).0)
  {
    var k := s.closures[c];
    var (users, erased) := EraseIdentity(s.users, k.head.user, host.strategy);
    var s1 := s.(users := users);
    OneWrite(s, Surroundings(s.now, users, s.holds));
    if erased {
      var k2 := k.(identityErasedAt := Some(s.now));
      var s2 := WithClosure(s1, c, k2);
      assert Put(s1, Advance(c, k2, false)) == s2;
      ThenWrite(s, s1, Advance(c, k2, false));
      if host.deletedEmitOk {
        var s3 := AnnounceLocal(s2, c);
        assert Put(s2, Advance(c, k2.(localErasureDone := true), true)) == s3;
        ThenWrite(s, s2, Advance(c, k2.(localErasureDone := true), true));
        FinalizeWrites(s3, cfg, pk);
        WritesTransitive(s, s3, MaybeFinalize(s3, cfg, pk));
      }
    }
  }

  lemma DigitsDenote(d: nat)
    requires d < 10
    ensures '0' <= Digit(d) <= '9' && DigitValue(Digit(d)) == d
  {
  }

  lemma OneDigit(c: char)
    ensures NumeralValue([c]) == DigitValue(c)
  {
    assert [c][..0] == "" && NumeralValue("") == 0;
  }

  lemma OneMoreDigit(front: string, c: char)
    ensures NumeralValue(front + [c]) == 10 * NumeralValue(front) + DigitValue(c)
  {
    assert (front + [c])[..|front|] == front;
  }

  /** The subject key of an account is the decimal of the user id. */
  lemma {:induction false} KeyIsNumeral(user: UserId)
    ensures IsNumeral(UserKey(user), user)
  {
    DigitsDenote(user % 10);
    if user >= 10 {
      var front := UserKey(user / 10);
      KeyIsNumeral(user / 10);
      OneMoreDigit(front, Digit(user % 10));
      OneDigit(front[0]);
      assert |front| == 1 ==> front == [front[0]];
    } else {
      OneDigit(Digit(user));
    }
  }

  /** What `execute_deletion` asks for is the account of the closure's user. */
  lemma AsksForItsUser(s: State, cfg: Config, c: nat, uuid: string)
    requires c < |s.closures|
    ensures AccountOf(NewHead(s, cfg, AccountErasure(s.closures[c], c), uuid), s.closures[c].head)
  {
    KeyIsNumeral(s.closures[c].head.user);
  }

  /** After the first half of `execute_deletion` the closure is DELETING under its
      correlation id, and the request found or opened is its own. */
  lemma EnsureWrites(s: State, cfg: Config, c: nat, uuid: string, host: Host)
    requires Enabled(s, Execute(cfg, c, uuid, host)) && Linked(s)
    ensures var (t, pk) := EnsureRequest(MarkDeleting(s, cfg, c, uuid), cfg, c, host);
            && Writes(s, t)
            && t.closures == MarkDeleting(s, cfg, c, uuid).closures
            && (pk.Some? ==> pk.value < |t.requests| && t.requests[pk.value].head.closure == Some(c))
  {
    var s1 := MarkDeleting(s, cfg, c, uuid);
    assert Put(s, Advance(c, s1.closures[c], false)) == s1;
    OneWrite(s, Advance(c, s1.closures[c], false));
    var correlation := s1.closures[c].correlation.value;
    AsksForItsUser(s1, cfg, c, correlation);
    OpenWrites(s1, cfg, AccountErasure(s1.closures[c], c), correlation, host.openEmitOk);
    NoWrites(s1);
    WritesTransitive(s, s1, EnsureRequest(s1, cfg, c, host).0);
    EnsuredIsOwn(s, cfg, c, uuid, host);
  }

  lemma EnsuredIsOwn(s: State, cfg: Config, c: nat, uuid: string, host: Host)
    requires Enabled(s, Execute(cfg, c, uuid, host)) && Linked(s)
    ensures var (t, pk) := EnsureRequest(MarkDeleting(s, cfg, c, uuid), cfg, c, host);
            pk.Some? ==> pk.value < |t.requests| && t.requests[pk.value].head.closure == Some(c)
  {
    var s1 := MarkDeleting(s, cfg, c, uuid);
    var found := FindByCorrelation(s1.requests, s1.closures[c].correlation.value);
    if found.Some? && s.closures[c].correlation.Some? {
      assert s.requests[found.value].head.closure == Some(c);
    }
  }

  lemma EraseLocallyWrites(s: State, cfg: Config, c: nat, pk: nat, host: Host)
    requires c < |s.closures| && pk < |s.requests|
    requires s.closures[c].status.Deleting? && s.closures[c].correlation.Some?
    requires s.requests[pk].head.closure == Some(c)
    ensures Writes(s, EraseLocally(s, cfg, c, pk, host).0)
  {
    var failed := FailedSections(cfg.providers, host);
    var parts := LocalReceipts(s.requests[pk], cfg.report, failed, s.now);
    LocalReceiptsFill(s.requests[pk], cfg.report, failed, s.now);
    OneWrite(s, Fill(pk, parts));
    var s1 := WithParts(s, pk, parts);
    EraseUserRowWrites(s1, cfg, c, pk, host);
    WritesTransitive(s, s1, EraseUserRow(s1, cfg, c, pk, host).0);
  }

  lemma ExecuteWrites(s: State, cfg: Config, c: nat, uuid: string, host: Host)
    requires Enabled(s, Execute(cfg, c, uuid, host)) && Linked(s)
    ensures Writes(s, ExecuteDeletion(s, cfg, c, uuid, host).0)
  {
    NoWrites(s);
    if !IsHeld(s, s.closures[c].head.user) {
      EnsureWrites(s, cfg, c, uuid, host);
      var (s2, pk) := EnsureRequest(MarkDeleting(s, cfg, c, uuid), cfg, c, host);
      if pk.Some? {
        EraseLocallyWrites(s2, cfg, c, pk.value, host);
        WritesTransitive(s, s2, EraseLocally(s2, cfg, c, pk.value, host).0);
      }
    }
  }

  lemma RecordWrites(s: State, cfg: Config, pk: nat, only: set<string>)
    requires pk < |s.requests|
    ensures Writes(s, RecordFor(s, cfg, pk, only))
  {
    var r := s.requests[pk];
    RecordedContents(r.obligations, DeclaredPairs(cfg.processors, only), Anchor(r.completedAt, s.now), s.now);
    OneWrite(s, Oblige(pk, Recorded(r.obligations, DeclaredPairs(cfg.processors, only), Anchor(r.completedAt, s.now), s.now)));
  }

  lemma StepWrites(s: State, step: Step)
    requires Enabled(s, step) && Linked(s)
    ensures Writes(s, Apply(s, step))
  {
    match step
    case Open(cfg, a, uuid, emitOk) => OpenWrites(s, cfg, a, uuid, emitOk);
    case Receipt(cfg, correlation, owner, id, counts) => ReceiptWrites(s, cfg, correlation, owner, id, counts);
    case Sweep(delivered) => SweepWrites(s, delivered);
    case Initiate(cfg, u, trigger, revocation, emitOk) => InitiateWrites(s, cfg, u, trigger, revocation, emitOk);
    case Cancel(u, emitOk) => CancelWrites(s, u, emitOk);
    case Execute(cfg, c, uuid, host) => ExecuteWrites(s, cfg, c, uuid, host);
    case RecordProcessors(cfg, pk, only) => RecordWrites(s, cfg, pk, only);
    case _ =>
      var t := Apply(s, step);
      OneWrite(s, Surroundings(t.now, t.users, t.holds));
  }

  // ----- evolution -----

  lemma RequestWriteEvolves(s: State, t: State, pk: nat)
    requires pk < |s.requests| && |t.requests| == |s.requests| && RequestEvolves(s.requests[pk], t.requests[pk])
    requires t.requests == s.requests[pk := t.requests[pk]]
    requires t.closures == s.closures && t.now == s.now && s.log <= t.log
    ensures Evolves(s, t)
  {
  }

  lemma ClosureWriteEvolves(s: State, t: State, c: nat)
    requires c < |s.closures| && |t.closures| == |s.closures| && ClosureEvolves(s.closures[c], t.closures[c])
    requires t.closures == s.closures[c := t.closures[c]]
    requires t.requests == s.requests && t.now == s.now && s.log <= t.log
    ensures Evolves(s, t)
  {
  }

  lemma CertifyEvolves(s: State, cfg: Config, pk: nat, waived: bool)
    requires CanWrite(s, Certify(cfg, pk, waived))
    ensures Evolves(s, Finalize(s, cfg, pk, waived))
  {
    var r := s.requests[pk];
    RecordedContents(r.obligations, DeclaredPairs(cfg.processors, {}), s.now, s.now);
    var t := s.(requests := s.requests[pk := Certified(r, cfg, s.now, waived)]);
    RequestWriteEvolves(s, t, pk);
    if r.head.closure.Some? {
      ClosureWriteEvolves(t, Finalize(s, cfg, pk, waived), r.head.closure.value);
      EvolvesTransitive(s, t, Finalize(s, cfg, pk, waived));
    }
  }

  lemma WriteEvolves(s: State, w: Write)
    requires CanWrite(s, w)
    ensures Evolves(s, Put(s, w))
  {
    match w
    case Fill(pk, _) => RequestWriteEvolves(s, Put(s, w), pk);
    case Certify(cfg, pk, waived) => CertifyEvolves(s, cfg, pk, waived);
    case TimeOut(pk, _) => RequestWriteEvolves(s, Put(s, w), pk);
    case Oblige(pk, _) => RequestWriteEvolves(s, Put(s, w), pk);
    case Advance(c, _, _) => ClosureWriteEvolves(s, Put(s, w), c);
    case CallOff(c) => ClosureWriteEvolves(s, Put(s, w), c);
    case _ =>
  }

  lemma {:induction false} WritesEvolve(s: State, ws: seq<Write>)
    requires CanPutAll(s, ws)
    ensures Evolves(s, PutAll(s, ws))
    decreases |ws|
  {
    if |ws| == 0 {
      EvolvesReflexive(s);
    } else {
      WriteEvolves(s, ws[0]);
      WritesEvolve(Put(s, ws[0]), ws[1..]);
      EvolvesTransitive(s, Put(s, ws[0]), PutAll(s, ws));
    }
  }

  lemma EraseLocallyEvolves(s: State, cfg: Config, c: nat, pk: nat, host: Host)
    requires c < |s.closures| && pk < |s.requests|
    requires s.closures[c].status.Deleting? && s.closures[c].correlation.Some?
    requires s.requests[pk].head.closure == Some(c)
    ensures Evolves(s, EraseLocally(s, cfg, c, pk, host).0)
  {
    EraseLocallyWrites(s, cfg, c, pk, host);
    var ws :| CanPutAll(s, ws) && PutAll(s, ws) == EraseLocally(s, cfg, c, pk, host).0;
    WritesEvolve(s, ws);
  }
}
