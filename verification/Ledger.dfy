/** The rows of the erasure ledger (models.py) and the reads over them.

    Tables are append-only sequences: a row's primary key is its index. The columns
    that no code rewrites after the insert are grouped in a head. Moments are integer
    seconds. Lists the source sorts only to display them are sets here. */
module Ledger {
  import opened Common
  import opened Inventory
  import opened Subprocessors

  type UserId = nat

  // ----- erasure requests and their receipt slots -----

  datatype PartState = Pending | Done | Failed | TimedOut

  /** One receipt slot; the owner's name is its key in `Request.parts`. */
  datatype Part = Part(state: PartState, kind: Kind, receiptId: string, receiptAt: Option<int>,
                       counts: map<string, int>, deadline: int)
  {
    predicate Receipted() {
      state.Done? && receiptId != "" && receiptAt.Some?
    }
  }

  datatype Origin = ByUser | ByDsar | ByInactivity | RestoreRequeue | ByAdmin | OtherOrigin(text: string)

  datatype RequestState = Queued | Erasing | Deleted | Timeout

  datatype Head = Head(subjectType: string, subjectKey: string, workspaceId: Option<string>,
                       requestedBy: Option<UserId>, origin: Origin, requestedAt: int, graceEndsAt: Option<int>,
                       dueAt: int, correlation: string, registryVersion: string, closure: Option<nat>,
                       source: Option<nat>, restoredFrom: Option<int>, note: string, idempotencyKey: string)

  datatype Request = Request(head: Head, state: RequestState, completedAt: Option<int>, waived: bool,
                             parts: map<string, Part>, obligations: map<string, Obligation>)
  {
    predicate Open() {
      state.Queued? || state.Erasing?
    }

    function Unreceipted(): set<string> {
      set o | o in parts && !parts[o].state.Done?
    }

    predicate AllDone() {
      forall o :: o in parts ==> parts[o].state.Done?
    }

    function Outcome(): Outcome {
      if state.Timeout? then Incomplete
      else if !state.Deleted? then OutcomePending
      else if waived || Unreceipted() != {} then Incomplete
      else Complete
    }
  }

  datatype Outcome = OutcomePending | Complete | Incomplete

  // ----- whose data a request is about -----

  function DigitValue(c: char): int {
    c as int - '0' as int
  }

  /** The number a string of digits denotes. */
  function NumeralValue(text: string): int {
    if text == "" then 0 else 10 * NumeralValue(text[..|text| - 1]) + DigitValue(text[|text| - 1])
  }

  /** `text` is the decimal numeral of `n`. */
  ghost predicate IsNumeral(text: string, n: nat) {
    && text != "" && (forall i :: 0 <= i < |text| ==> '0' <= text[i] <= '9')
    && (text[0] == '0' ==> |text| == 1) && NumeralValue(text) == n
  }

  /** The erasure of the account a closure is about. */
  ghost predicate AccountOf(h: Head, k: ClosureHead) {
    && h.subjectType == "account" && IsNumeral(h.subjectKey, k.user)
    && h.workspaceId.None? && h.requestedBy == Some(k.user)
    && (h.origin.ByInactivity? <==> k.trigger.Inactivity?) && (h.origin.ByUser? <==> !k.trigger.Inactivity?)
    && h.graceEndsAt == Some(k.graceEndsAt)
    && h.source.None? && h.restoredFrom.None? && h.note == "" && h.idempotencyKey == ""
  }

  /** Both requests erase the same thing for the same person. */
  predicate SameSubject(h: Head, of: Head) {
    h.subjectType == of.subjectType && h.subjectKey == of.subjectKey && h.workspaceId == of.workspaceId && h.requestedBy == of.requestedBy
  }

  // ----- account closures -----

  datatype Trigger = Manual | Inactivity | Platform
  datatype ClosureStatus = Grace | Deleting | ClosureDeleted | Cancelled

  datatype ClosureHead = ClosureHead(user: UserId, trigger: Trigger, initiatedAt: int, graceEndsAt: int)

  datatype Closure = Closure(head: ClosureHead, status: ClosureStatus, correlation: Option<string>,
                             localErasureDone: bool, registryVersion: string, waived: bool,
                             identityErasedAt: Option<int>, deletedAt: Option<int>, cancelledAt: Option<int>)
  {
    predicate Active() {
      status.Grace? || status.Deleting?
    }

    /** What `_maybe_finalize` asks of the closure before it looks at the receipts. */
    predicate ReadyToCertify() {
      status.Deleting? && localErasureDone && identityErasedAt.Some?
    }
  }

  // ----- users, holds, events -----

  /** The primary user row; `identity` maps identifying fields to values, "" when unset. */
  datatype User = User(active: bool, identity: map<string, string>)

  datatype Hold = Hold(user: UserId, releasedAt: Option<int>)

  datatype Event =
    | SessionsRevoked(user: UserId)
    | DeletionInitiated(user: UserId, trigger: Trigger, graceEndsAt: int)
    | DeletionCancelled(user: UserId, trigger: Trigger, cancelledAt: Option<int>)
    | UserDeleted(user: UserId, correlation: string, trigger: Trigger)
    | ErasureRequested(request: nat, correlation: string, subjectType: string, subjectKey: string,
                       workspaceId: Option<string>, requestedBy: Option<UserId>, origin: Origin, dueAt: int)
    | ErasureTimeout(request: nat, correlation: string, subjectType: string, subjectKey: string,
                     owners: set<string>, dueAt: int)

  datatype State = State(now: int, users: map<UserId, User>, holds: seq<Hold>, closures: seq<Closure>,
                         requests: seq<Request>, log: seq<Event>)

  const EMPTY := State(0, map[], [], [], [], [])

  // ----- queries -----

  /** `LegalHold.is_held` */
  predicate IsHeld(s: State, user: UserId) {
    exists h :: h in s.holds && h.user == user && h.releasedAt.None?
  }

  /** The request carrying a correlation id; the column is unique. */
  function FindByCorrelation(requests: seq<Request>, correlation: string): (r: Option<nat>)
    ensures r.Some? ==> r.value < |requests| && requests[r.value].head.correlation == correlation
    ensures r.None? ==> forall i :: 0 <= i < |requests| ==> requests[i].head.correlation != correlation
  {
    if requests == [] then None
    else
      var n := |requests| - 1;
      if requests[n].head.correlation == correlation then Some(n) else FindByCorrelation(requests[..n], correlation)
  }

  /** The request carrying an idempotency key; unique when non-empty. */
  function FindByKey(requests: seq<Request>, key: string): (r: Option<nat>)
    ensures r.Some? ==> r.value < |requests| && requests[r.value].head.idempotencyKey == key
    ensures r.None? ==> forall i :: 0 <= i < |requests| ==> requests[i].head.idempotencyKey != key
  {
    if requests == [] then None
    else
      var n := |requests| - 1;
      if requests[n].head.idempotencyKey == key then Some(n) else FindByKey(requests[..n], key)
  }

  /** The first closure of a user still in its grace period. */
  function FindGrace(closures: seq<Closure>, user: UserId): (r: Option<nat>)
    ensures r.Some? ==> r.value < |closures| && closures[r.value].head.user == user && closures[r.value].status.Grace?
    ensures r.Some? ==> forall i :: 0 <= i < r.value ==> !(closures[i].head.user == user && closures[i].status.Grace?)
    ensures r.None? ==> forall i :: 0 <= i < |closures| ==> !(closures[i].head.user == user && closures[i].status.Grace?)
  {
    if closures == [] then None
    else
      var n := |closures| - 1;
      var earlier := FindGrace(closures[..n], user);
      if earlier.Some? then earlier
      else if closures[n].head.user == user && closures[n].status.Grace? then Some(n)
      else None
  }

  predicate HasActiveClosure(s: State, user: UserId) {
    exists c :: c in s.closures && c.head.user == user && c.Active()
  }

  // ----- access (lifecycle.py) -----

  datatype Access = AccessActive | AccessClosing | AccessDeleting | AccessDeleted

  /** `access_state`: derived from the closure rows, never from `active`. */
  function AccessState(s: State, user: UserId): Access {
    var statuses := set c | c in s.closures && c.head.user == user && !c.status.Cancelled? :: c.status;
    if ClosureDeleted in statuses then AccessDeleted
    else if Deleting in statuses then AccessDeleting
    else if Grace in statuses then AccessClosing
    else AccessActive
  }

  predicate IsAccessDenied(s: State, user: UserId) {
    AccessState(s, user).AccessDeleting? || AccessState(s, user).AccessDeleted?
  }

  /** The three outcomes. */
  lemma OutcomeMeans(r: Request)
    ensures r.Outcome() == OutcomePending <==> r.state.Queued? || r.state.Erasing?
    ensures r.Outcome() == Incomplete <==>
              r.state.Timeout? || (r.state.Deleted? && (r.waived || exists o :: o in r.parts && !r.parts[o].state.Done?))
  {
    CompleteMeans(r);
  }

  /** The four access states, read off the closures of the user. */
  lemma AccessMeans(s: State, user: UserId)
    ensures AccessState(s, user) == AccessDeleted <==> HasClosure(s, user, ClosureDeleted)
    ensures AccessState(s, user) == AccessDeleting <==> HasClosure(s, user, Deleting) && !HasClosure(s, user, ClosureDeleted)
    ensures AccessState(s, user) == AccessClosing <==>
              HasClosure(s, user, Grace) && !HasClosure(s, user, Deleting) && !HasClosure(s, user, ClosureDeleted)
    ensures AccessState(s, user) == AccessActive <==>
              !HasClosure(s, user, Grace) && !HasClosure(s, user, Deleting) && !HasClosure(s, user, ClosureDeleted)
  {
    var statuses := set c | c in s.closures && c.head.user == user && !c.status.Cancelled? :: c.status;
    forall status: ClosureStatus | !status.Cancelled? ensures status in statuses <==> HasClosure(s, user, status) {
      if status in statuses {
        var k :| k in s.closures && k.head.user == user && k.status == status;
        var c :| 0 <= c < |s.closures| && s.closures[c] == k;
      }
      if HasClosure(s, user, status) {
        var c :| 0 <= c < |s.closures| && s.closures[c].head.user == user && s.closures[c].status == status;
        assert s.closures[c] in s.closures;
      }
    }
  }

  ghost predicate HasClosure(s: State, user: UserId, status: ClosureStatus) {
    exists c :: 0 <= c < |s.closures| && s.closures[c].head.user == user && s.closures[c].status == status
  }

  /** `outcome` is complete exactly when the request is DELETED, un-waived and fully receipted. */
  lemma CompleteMeans(r: Request)
    ensures r.Outcome() == Complete <==> r.state.Deleted? && !r.waived && r.AllDone()
  {
    if r.Unreceipted() == {} {
      forall o | o in r.parts ensures r.parts[o].state.Done? {
        assert o !in r.Unreceipted();
      }
    } else {
      var o :| o in r.Unreceipted();
    }
  }
}
