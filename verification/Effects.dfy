/** What the other entry points do, said field by field: opening, the deadline sweep, the
    account lifecycle, the closure token and the restore command. */
module Effects {
  import opened Common
  import opened Inventory
  import opened Ledger
  import opened Protocol
  import opened Runs
  import opened Verdicts

  // ----- opening -----

  /** The slot of an owner: pending, of the owner's kind, due after the owner's own time. */
  ghost predicate SlotOf(p: Part, o: DataOwner, now: int) {
    p.state.Pending? && p.kind == o.kind && p.receiptId == "" && p.receiptAt.None? && p.counts == map[] && p.deadline == now + o.timeout
  }

  lemma {:induction false} SlotPerOwner(owners: seq<DataOwner>, now: int)
    requires forall i, j :: 0 <= i < j < |owners| ==> owners[i].name != owners[j].name
    ensures forall i :: 0 <= i < |owners| ==> owners[i].name in Slots(owners, now) && SlotOf(Slots(owners, now)[owners[i].name], owners[i], now)
    ensures forall o :: o in Slots(owners, now) ==> exists i :: 0 <= i < |owners| && owners[i].name == o
  {
    if owners != [] {
      var n := |owners| - 1;
      SlotPerOwner(owners[..n], now);
      forall i | 0 <= i < |owners| ensures owners[i].name in Slots(owners, now) && SlotOf(Slots(owners, now)[owners[i].name], owners[i], now) {
        if i < n {
          assert owners[..n][i] == owners[i];
        }
      }
      forall o | o in Slots(owners, now) ensures exists i :: 0 <= i < |owners| && owners[i].name == o {
        if o in Slots(owners[..n], now) {
          var i :| 0 <= i < n && owners[..n][i].name == o;
          assert owners[i].name == o;
        } else {
          assert owners[n].name == o;
        }
      }
    }
  }

  ghost predicate NamesOnce(owners: seq<DataOwner>) {
    forall i, j :: 0 <= i < j < |owners| ==> owners[i].name != owners[j].name
  }

  lemma {:induction false} ClaimingOnce(owners: seq<DataOwner>, subject: string)
    requires NamesOnce(owners)
    ensures NamesOnce(Claiming(owners, subject))
  {
    if owners != [] {
      var n := |owners| - 1;
      ClaimingOnce(owners[..n], subject);
      var rest := Claiming(owners[..n], subject);
      forall i | 0 <= i < |rest| ensures rest[i].name != owners[n].name {
        assert rest[i] in rest && rest[i] in owners[..n];
        var j :| 0 <= j < n && owners[..n][j] == rest[i];
        assert owners[j].name != owners[n].name;
      }
    }
  }

  /** The row says what the caller asked, when, and by when. */
  ghost predicate Asked(h: Head, a: OpenArgs, cfg: Config, uuid: string, now: int) {
    && h.subjectType == a.subjectType && h.subjectKey == a.subjectKey && h.workspaceId == a.workspaceId
    && h.requestedBy == a.requestedBy && h.origin == a.origin && h.requestedAt == now && h.graceEndsAt == a.graceEndsAt
    && h.dueAt == now + cfg.slaDays * 86400 && h.registryVersion == cfg.report.version
    && h.correlation == (if a.correlation.Some? then a.correlation.value else uuid)
    && h.closure == a.closure && h.source == a.source && h.restoredFrom == a.restoredFrom && h.note == a.note
    && h.idempotencyKey == a.idempotencyKey
  }

  /** A caller without a source opens a new request exactly when the type is declared, the key
      is empty or unused, and the emit goes out. */
  lemma OpensIff(s: State, cfg: Config, a: OpenArgs, uuid: string, emitOk: bool)
    requires Enabled(s, Open(cfg, a, uuid, emitOk)) && a.source.None?
    ensures var (t, result) := RequestErasure(s, cfg, a, uuid, emitOk);
            var known := a.idempotencyKey != "" && exists i :: 0 <= i < |s.requests| && s.requests[i].head.idempotencyKey == a.idempotencyKey;
            && (result.UnknownSubjectType? <==> a.subjectType !in cfg.subjectTypes)
            && (result.Existing? <==> a.subjectType in cfg.subjectTypes && known)
            && (result.EmitFailed? <==> a.subjectType in cfg.subjectTypes && !known && !emitOk)
            && (result.Opened? <==> a.subjectType in cfg.subjectTypes && !known && emitOk)
            && (result.Opened? ==> result.pk == |s.requests|) && (!result.Opened? ==> t == s)
            && (result.Existing? ==> result.pk < |s.requests| && s.requests[result.pk].head.idempotencyKey == a.idempotencyKey)
  {
    if !(a.idempotencyKey != "" && FindByKey(s.requests, a.idempotencyKey).Some?) {
      assert !ViolatesUnique(s.requests, NewHead(s, cfg, a, uuid));
    }
  }

  /** What an opened request and its announcement say. */
  lemma OpenedSays(s: State, cfg: Config, a: OpenArgs, uuid: string, emitOk: bool)
    requires RequestErasure(s, cfg, a, uuid, emitOk).1.Opened? && NamesOnce(cfg.report.owners)
    ensures var t := RequestErasure(s, cfg, a, uuid, emitOk).0;
            var r := t.requests[|s.requests|];
            && |t.requests| == |s.requests| + 1 && t.requests[..|s.requests|] == s.requests
            && t.closures == s.closures && t.users == s.users && t.holds == s.holds && t.now == s.now
            && Asked(r.head, a, cfg, uuid, s.now) && r.state.Erasing? && r.completedAt.None? && !r.waived && r.obligations == map[]
            && (forall o :: o in r.parts <==> exists d :: d in cfg.report.owners && d.name == o && a.subjectType in d.subjects)
            && (forall d :: d in cfg.report.owners && a.subjectType in d.subjects ==> d.name in r.parts && SlotOf(r.parts[d.name], d, s.now))
  {
    var owners := cfg.report.OwnersFor(a.subjectType);
    ClaimingOnce(cfg.report.owners, a.subjectType);
    SlotPerOwner(owners, s.now);
    var slots := Slots(owners, s.now);
    forall d | d in cfg.report.owners && a.subjectType in d.subjects ensures d.name in slots && SlotOf(slots[d.name], d, s.now) {
      assert d in owners;
      var i :| 0 <= i < |owners| && owners[i] == d;
    }
    forall o | o in slots ensures exists d :: d in cfg.report.owners && d.name == o && a.subjectType in d.subjects {
      var i :| 0 <= i < |owners| && owners[i].name == o;
      assert owners[i] in owners;
    }
  }

  // ----- the account lifecycle -----

  /** Only the user's `active` flag changes, and only if there is a row. */
  ghost predicate ActiveSet(before: map<UserId, User>, after: map<UserId, User>, user: UserId, active: bool) {
    && after.Keys == before.Keys
    && (forall u :: u in before && u != user ==> after[u] == before[u])
    && (user in before ==> after[user].active == active && after[user].identity == before[user].identity)
  }

  ghost predicate HasOpenClosure(s: State, user: UserId) {
    exists c :: 0 <= c < |s.closures| && s.closures[c].head.user == user && (s.closures[c].status.Grace? || s.closures[c].status.Deleting?)
  }

  lemma OpenClosureMeans(s: State, user: UserId)
    ensures HasActiveClosure(s, user) <==> HasOpenClosure(s, user)
  {
    if HasOpenClosure(s, user) {
      var c :| 0 <= c < |s.closures| && s.closures[c].head.user == user && (s.closures[c].status.Grace? || s.closures[c].status.Deleting?);
      assert s.closures[c] in s.closures;
    }
  }

  /** When a closure is refused, in the order of the tests, and what an accepted one writes:
      thirty days of grace, a deactivated user, revoked sessions and one announcement. */
  lemma InitiateMeans(s: State, cfg: Config, user: UserId, trigger: Trigger, revocation: Revocation, emitOk: bool)
    ensures var (t, result) := InitiateClosure(s, cfg, user, trigger, revocation, emitOk);
            var free := !Held(s, user) && !HasOpenClosure(s, user);
            && (result.HeldByLaw? <==> Held(s, user))
            && (result.AlreadyPending? <==> !Held(s, user) && HasOpenClosure(s, user))
            && (result.RevocationUnavailable? <==> free && revocation.NoSeam? && !cfg.revocationHatch)
            && (result.Initiated? <==> free && !(revocation.NoSeam? && !cfg.revocationHatch) && !revocation.Raises? && emitOk)
            && (!result.Initiated? ==> t == s)
            && (result.Initiated? ==>
                  && result.pk == |s.closures| && |t.closures| == |s.closures| + 1 && t.closures[..|s.closures|] == s.closures
                  && var k := t.closures[|s.closures|];
                  && k.head == ClosureHead(user, trigger, s.now, s.now + 2592000) && k.status.Grace? && k.correlation.None?
                  && !k.localErasureDone && !k.waived && k.registryVersion == cfg.report.version
                  && k.identityErasedAt.None? && k.deletedAt.None? && k.cancelledAt.None?
                  && ActiveSet(s.users, t.users, user, false)
                  && t.requests == s.requests && t.holds == s.holds && t.now == s.now
                  && t.log == s.log + [SessionsRevoked(user), DeletionInitiated(user, trigger, s.now + 2592000)])
  {
    HeldMeans(s, user);
    OpenClosureMeans(s, user);
  }

  /** Cancelling takes a closure in its grace and gives the user the account back. */
  lemma CancelMeans(s: State, user: UserId, emitOk: bool)
    ensures var (t, result) := CancelClosure(s, user, emitOk);
            && (result.NoActiveClosure? <==> !HasClosure(s, user, Grace))
            && (result.CancelledClosure? <==> HasClosure(s, user, Grace) && emitOk)
            && (!result.CancelledClosure? ==> t == s)
            && (result.CancelledClosure? ==>
                  && result.pk < |s.closures| && s.closures[result.pk].head.user == user && s.closures[result.pk].status.Grace?
                  && |t.closures| == |s.closures|
                  && (forall c :: 0 <= c < |s.closures| && c != result.pk ==> t.closures[c] == s.closures[c])
                  && t.closures[result.pk] == s.closures[result.pk].(status := Cancelled, cancelledAt := Some(s.now))
                  && ActiveSet(s.users, t.users, user, true)
                  && t.requests == s.requests && t.holds == s.holds && t.now == s.now
                  && t.log == s.log + [DeletionCancelled(user, s.closures[result.pk].head.trigger, Some(s.now))])
  {
    var found := FindGrace(s.closures, user);
    if HasClosure(s, user, Grace) {
      var c :| 0 <= c < |s.closures| && s.closures[c].head.user == user && s.closures[c].status == Grace;
      assert found.Some?;
    }
  }

  /** The closures the grace sweep selects. */
  lemma SelectedMeans(s: State, c: nat)
    requires c < |s.closures|
    ensures c in GraceCandidates(s, |s.closures|) <==>
              s.closures[c].status.Grace? && s.closures[c].head.graceEndsAt <= s.now && !Held(s, s.closures[c].head.user)
  {
    HeldMeans(s, s.closures[c].head.user);
  }

  /** A hold counts from its placing until its own release. */
  lemma HoldsMean(s: State, user: UserId, h: nat, other: UserId)
    requires h < |s.holds|
    ensures Held(Apply(s, PlaceHold(user)), other) <==> Held(s, other) || other == user
    ensures Held(Apply(s, ReleaseHold(h)), other) <==>
              exists i :: 0 <= i < |s.holds| && i != h && s.holds[i].user == other && s.holds[i].releasedAt.None?
  {
    var placed, released := Apply(s, PlaceHold(user)), Apply(s, ReleaseHold(h));
    assert placed.holds[|s.holds|] == Hold(user, None);
    if Held(s, other) {
      var i :| 0 <= i < |s.holds| && s.holds[i].user == other && s.holds[i].releasedAt.None?;
      assert placed.holds[i] == s.holds[i];
    }
    if i :| 0 <= i < |s.holds| && i != h && s.holds[i].user == other && s.holds[i].releasedAt.None? {
      assert released.holds[i] == s.holds[i];
    }
  }

  // ----- the closure token -----

  /** The newest closure of a user: latest initiated, highest key among equals. */
  ghost predicate IsNewest(s: State, c: nat, user: UserId) {
    && c < |s.closures| && s.closures[c].head.user == user
    && forall d :: 0 <= d < |s.closures| && s.closures[d].head.user == user ==>
         s.closures[d].head.initiatedAt < s.closures[c].head.initiatedAt
         || (s.closures[d].head.initiatedAt == s.closures[c].head.initiatedAt && d <= c)
  }

  /** A token decides exactly by its signature, its expiry, its subject and being the newest. */
  lemma TokenMeans(s: State, c: nat, subject: UserId, expires: int)
    ensures ClosureFromToken(s, NoHeader) == NoToken && ClosureFromToken(s, Unreadable) == TokenInvalid
    ensures var decision := ClosureFromToken(s, Signed(c, subject, expires));
            && (decision.TokenExpired? <==> expires < s.now)
            && (decision == Accepted(c) <==> s.now <= expires && IsNewest(s, c, subject))
            && (decision.OutOfScope? <==> s.now <= expires && !IsNewest(s, c, subject))
  {
    var newest := Newest(s.closures, subject);
    if newest.Some? && IsNewest(s, c, subject) {
      assert newest.value <= c && c <= newest.value;
    }
  }

  /** Who is told what when cancelling with a token. */
  lemma TokenAnswers(s: State, header: TokenHeader, emitOk: bool)
    requires !header.NoHeader?
    ensures var response := CancelWithToken(s, header, emitOk).1;
            && (response.Unauthorized? <==> header.Unreadable? || header.expires < s.now)
            && (response.Forbidden? <==> header.Signed? && s.now <= header.expires && !IsNewest(s, header.closure, header.subject))
            && (response.NotFound? <==>
                  header.Signed? && s.now <= header.expires && IsNewest(s, header.closure, header.subject) && !HasClosure(s, header.subject, Grace))
            && (response.CancelledOk? <==>
                  header.Signed? && s.now <= header.expires && IsNewest(s, header.closure, header.subject) && HasClosure(s, header.subject, Grace) && emitOk)
            && (!response.CancelledOk? ==> CancelWithToken(s, header, emitOk).0 == s)
  {
    if header.Signed? {
      TokenMeans(s, header.closure, header.subject, header.expires);
      CancelMeans(s, header.subject, emitOk);
    }
  }
}
