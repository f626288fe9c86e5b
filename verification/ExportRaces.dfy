/** One export row under concurrency: workers, part callbacks, the deadline sweep, download
    attempts, expiry and purge, each split at the points where it does not hold the row. */
module ExportRaces {
  import opened Common
  import opened Inventory
  import opened Exports

  /** A caller the sweep selected for a forced assembly, or one building the archive. */
  datatype Worker = Forced | InAssembly

  /** `_serve`: the row was read; the archive was seen; the token was spent; the response. */
  datatype Attempt =
    | Looked(token: string, key: Option<string>)
    | Found(token: string, key: Option<string>)
    | Won(token: string, key: Option<string>)
    | Answered(token: string, key: Option<string>, archive: bool)
    | Refused(token: string)
  {
    predicate HasWon() {
      Won? || Answered?
    }

    predicate CarriesArchive() {
      Answered? && archive
    }
  }

  /** `expire_export`: delete the object, then update the row. */
  datatype Expirer = Deleting(key: Option<string>) | Updating | Finished

  /** `ready` holds the token of every `user.export_ready` event. */
  datatype World = World(e: Export, now: int, stored: set<string>, ready: seq<string>,
                         workers: map<nat, Worker>, attempts: map<nat, Attempt>, expirers: seq<Expirer>)

  datatype Move =
    | Tick(seconds: nat)
    | Start
    | Provide(service: string, ok: bool)
    | PartReady(service: string)
    | Select(w: nat)
    | Begin(w: nat)
    | Commit(w: nat, report: RegistryReport, key: string, token: string, ttl: nat)
    | Abort(w: nat)
    | Look(a: nat, user: nat, token: string)
    | CheckStore(a: nat)
    | Spend(a: nat)
    | OpenArchive(a: nat)
    | CleanUp(a: nat)
    | Purge
    | ExpireDelete(x: nat)
    | ExpireUpdate(x: nat)
    | Lose(key: string)

  predicate Phase(w: World, m: Move) {
    match m
    case Select(v) => v !in w.workers && w.e.status.Processing? && w.e.deadline <= w.now
    case Begin(v) => v in w.workers ==> w.workers[v].Forced?
    case Commit(v, _, _, token, _) => v in w.workers && w.workers[v].InAssembly? && token != ""
    case Abort(v) => v in w.workers && w.workers[v].InAssembly?
    case Look(a, _, _) => a !in w.attempts
    case CheckStore(a) => a in w.attempts && w.attempts[a].Looked?
    case Spend(a) => a in w.attempts && w.attempts[a].Found?
    case OpenArchive(a) => a in w.attempts && w.attempts[a].Won?
    case CleanUp(a) => a in w.attempts && w.attempts[a].CarriesArchive()
    case Purge => Purgeable(w.e, w.now)
    case ExpireDelete(x) => x < |w.expirers| && w.expirers[x].Deleting?
    case ExpireUpdate(x) => x < |w.expirers| && w.expirers[x].Updating?
    case _ => true
  }

  function Gone(stored: set<string>, key: Option<string>): set<string> {
    if key.Some? then stored - {key.value} else stored
  }

  predicate InStore(w: World, key: Option<string>) {
    key.Some? && key.value in w.stored
  }

  predicate TooLate(w: World) {
    w.e.expiresAt.Some? && w.e.expiresAt.value < w.now
  }

  /** The refusals `_serve` makes from the row it read. */
  function Lookup(w: World, user: nat, token: string): Attempt {
    if token == "" || user != w.e.user || w.e.token != Some(token) then Refused(token)
    else if w.e.consumedAt.Some? || !w.e.status.Ready? || TooLate(w) then Refused(token)
    else Looked(token, w.e.archive)
  }

  /** A reader that finds the window closed expires the export. */
  predicate ReaderExpires(w: World, user: nat, token: string) {
    token != "" && user == w.e.user && w.e.token == Some(token) && w.e.consumedAt.None? && w.e.status.Ready? && TooLate(w)
  }

  function Do(w: World, m: Move): World
    requires Phase(w, m)
  {
    match m
    case Tick(d) => w.(now := w.now + d)
    case Start => w.(e := Started(w.e))
    case Provide(s, ok) => w.(e := PartResult(w.e, s, ok))
    case PartReady(s) => if PartAwaited(w.e, s) then w.(e := PartResult(w.e, s, true)) else w
    case Select(v) => w.(workers := w.workers[v := Forced])
    case Begin(v) =>
      if MayAssemble(w.e, w.now, v in w.workers)
      then w.(e := w.e.(status := Assembling), workers := w.workers[v := InAssembly])
      else w.(workers := w.workers - {v})
    case Commit(v, report, key, token, ttl) =>
      w.(e := Assembled(w.e, report, key, token, w.now, ttl), stored := w.stored + {key}, ready := w.ready + [token],
         workers := w.workers - {v})
    case Abort(v) => w.(e := w.e.(status := Processing), workers := w.workers - {v})
    case Look(a, user, token) =>
      w.(attempts := w.attempts[a := Lookup(w, user, token)],
         expirers := if ReaderExpires(w, user, token) then w.expirers + [Deleting(w.e.archive)] else w.expirers)
    case CheckStore(a) =>
      var at := w.attempts[a];
      w.(attempts := w.attempts[a := if InStore(w, at.key) then Found(at.token, at.key) else Refused(at.token)])
    case Spend(a) =>
      var at := w.attempts[a];
      if Spendable(w.e, at.token)
      then w.(e := w.e.(consumedAt := Some(w.now)), attempts := w.attempts[a := Won(at.token, at.key)])
      else w.(attempts := w.attempts[a := Refused(at.token)])
    case OpenArchive(a) =>
      var at := w.attempts[a];
      w.(attempts := w.attempts[a := Answered(at.token, at.key, InStore(w, at.key))])
    case CleanUp(a) => w.(stored := Gone(w.stored, w.attempts[a].key), e := w.e.(archive := None))
    case Purge => w.(expirers := w.expirers + [Deleting(w.e.archive)])
    case ExpireDelete(x) => w.(stored := Gone(w.stored, w.expirers[x].key), expirers := w.expirers[x := Updating])
    case ExpireUpdate(x) => w.(e := ExpiredRow(w.e), expirers := w.expirers[x := Finished])
    case Lose(key) => w.(stored := w.stored - {key})
  }

  ghost predicate ValidMoves(w: World, ms: seq<Move>)
    decreases |ms|
  {
    ms == [] || (Phase(w, ms[0]) && ValidMoves(Do(w, ms[0]), ms[1..]))
  }

  ghost function DoAll(w: World, ms: seq<Move>): World
    requires ValidMoves(w, ms)
    decreases |ms|
  {
    if ms == [] then w else DoAll(Do(w, ms[0]), ms[1..])
  }

  /** A row as `request_export` leaves it, before anyone else has seen it. */
  ghost predicate Requested(w: World) {
    && w.e.status.ExportPending? && Unminted(w.e)
    && w.ready == [] && w.workers == map[] && w.attempts == map[] && w.expirers == []
  }

  predicate Unminted(e: Export) {
    e.token.None? && e.consumedAt.None? && e.expiresAt.None? && e.archive.None?
  }

  // ----- what every move keeps -----

  /** ASSEMBLING is held by exactly one worker; only overdue rows are forced. */
  ghost predicate Mutex(w: World) {
    && (forall u, v :: Builds(w, u) && Builds(w, v) ==> u == v)
    && (w.e.status.Assembling? <==> exists v :: Builds(w, v))
    && (forall v :: v in w.workers && w.workers[v].Forced? ==> w.e.deadline <= w.now)
  }

  ghost predicate Builds(w: World, v: nat) {
    v in w.workers && w.workers[v].InAssembly?
  }

  /** The row and its ready events agree on whether a token was minted. */
  ghost predicate Minting(w: World) {
    && (w.ready == [] ==> Unminted(w.e) && (Runnable(w.e) || w.e.status.Assembling?) && w.expirers == [])
    && (w.ready != [] ==>
          && |w.ready| == 1 && w.ready[0] != "" && w.e.expiresAt.Some?
          && (w.e.status.Ready? || (w.e.status.Expired? && w.expirers != []))
          && (w.e.token == Some(w.ready[0]) || (w.e.token.None? && w.e.status.Expired?)))
    && (w.expirers != [] && w.e.consumedAt.None? ==> w.e.expiresAt.Some? && w.e.expiresAt.value <= w.now)
  }

  /** The row is consumed if and only if one attempt has won, and nobody else has. */
  ghost predicate Winners(w: World) {
    && (forall a, b :: Winner(w, a) && Winner(w, b) ==> a == b)
    && (w.e.consumedAt.Some? <==> exists a :: Winner(w, a))
    && (forall a :: a in w.attempts && !w.attempts[a].Refused? ==> w.ready != [] && w.attempts[a].token == w.ready[0])
  }

  ghost predicate Winner(w: World, a: nat) {
    a in w.attempts && w.attempts[a].HasWon()
  }

  ghost predicate Sound(w: World) {
    Mutex(w) && Minting(w) && Winners(w)
  }

  lemma MutexKept(w: World, m: Move)
    requires Mutex(w) && Minting(w) && Phase(w, m)
    ensures Mutex(Do(w, m))
  {
    var t := Do(w, m);
    if m.Commit? || m.Abort? {
      assert Builds(w, m.w) && !Builds(t, m.w);
    } else if exists v :: Builds(w, v) {
      var v :| Builds(w, v);
      assert Builds(t, v);
    }
    if m.Begin? && MayAssemble(w.e, w.now, m.w in w.workers) {
      assert Builds(t, m.w);
    }
    assert forall v :: Builds(t, v) ==> Builds(w, v) || (m == Begin(v) && !w.e.status.Assembling?);
  }

  lemma MintingKept(w: World, m: Move)
    requires Mutex(w) && Minting(w) && Phase(w, m)
    ensures Minting(Do(w, m))
  {
    if m.Commit? || m.Abort? {
      assert Builds(w, m.w);
    }
  }

  lemma WinnersKept(w: World, m: Move)
    requires Sound(w) && Phase(w, m)
    ensures Winners(Do(w, m))
  {
    match m
    case Look(a, user, token) => AttemptChanges(w, Do(w, m), a);
    case CheckStore(a) => AttemptChanges(w, Do(w, m), a);
    case Spend(a) =>
      if Spendable(w.e, w.attempts[a].token) {
        AttemptWins(w, Do(w, m), a);
      } else {
        AttemptChanges(w, Do(w, m), a);
      }
    case OpenArchive(a) => AttemptChanges(w, Do(w, m), a);
    case Commit(v, _, _, _, _) =>
      assert Builds(w, v);
      NobodyCame(w, Do(w, m));
    case _ => SameAttempts(w, Do(w, m));
  }

  lemma SameAttempts(w: World, t: World)
    requires Winners(w) && t.attempts == w.attempts && t.ready == w.ready
    requires t.e.consumedAt == w.e.consumedAt
    ensures Winners(t)
  {
    assert forall a :: Winner(t, a) <==> Winner(w, a);
  }

  /** Before the token is minted there is nothing to look up. */
  lemma NobodyCame(w: World, t: World)
    requires Winners(w) && w.ready == [] && t.attempts == w.attempts && w.e.consumedAt.None? && t.e.consumedAt.None?
    ensures Winners(t)
  {
    assert forall a :: Winner(t, a) <==> Winner(w, a);
  }

  /** One attempt moves on, without winning or losing what it has won. */
  lemma AttemptChanges(w: World, t: World, a: nat)
    requires Winners(w) && t.ready == w.ready && t.e.consumedAt == w.e.consumedAt
    requires a in t.attempts && t.attempts == w.attempts[a := t.attempts[a]]
    requires t.attempts[a].HasWon() <==> a in w.attempts && w.attempts[a].HasWon()
    requires !t.attempts[a].Refused? ==> w.ready != [] && t.attempts[a].token == w.ready[0]
    ensures Winners(t)
  {
    assert forall b :: Winner(t, b) <==> Winner(w, b);
  }

  /** The first to spend is the only one. */
  lemma AttemptWins(w: World, t: World, a: nat)
    requires Winners(w) && t.ready == w.ready && w.e.consumedAt.None? && t.e.consumedAt.Some?
    requires a in t.attempts && t.attempts == w.attempts[a := t.attempts[a]] && t.attempts[a].HasWon()
    requires w.ready != [] && t.attempts[a].token == w.ready[0]
    ensures Winners(t)
  {
    assert Winner(t, a);
    assert forall b :: b != a && Winner(t, b) ==> Winner(w, b);
  }

  lemma MoveKeeps(w: World, m: Move)
    requires Sound(w) && Phase(w, m)
    ensures Sound(Do(w, m))
  {
    MutexKept(w, m);
    MintingKept(w, m);
    WinnersKept(w, m);
  }

  lemma {:induction false} RacesAreSound(w: World, ms: seq<Move>)
    requires Sound(w) && ValidMoves(w, ms)
    ensures Sound(DoAll(w, ms))
    decreases |ms|
  {
    if ms != [] {
      MoveKeeps(w, ms[0]);
      RacesAreSound(Do(w, ms[0]), ms[1..]);
    }
  }

  // ----- what each move decides -----

  /** A reader gets past the row exactly with the subject's own, unspent token, for a ready
      export, inside the window; a reader with that token who comes too late expires it. */
  lemma LookMeans(w: World, a: nat, user: nat, token: string)
    requires a !in w.attempts
    ensures var v := Do(w, Look(a, user, token));
            var mine := token != "" && user == w.e.user && w.e.token == Some(token) && w.e.consumedAt.None? && w.e.status.Ready?;
            var late := w.e.expiresAt.Some? && w.e.expiresAt.value < w.now;
            && a in v.attempts && v.e == w.e && v.stored == w.stored && v.ready == w.ready
            && (mine && !late ==> v.attempts[a] == Looked(token, w.e.archive) && v.expirers == w.expirers)
            && (!(mine && !late) ==> v.attempts[a] == Refused(token))
            && (if mine && late then v.expirers == w.expirers + [Deleting(w.e.archive)] else v.expirers == w.expirers)
  {
  }

  /** An assembly begins exactly for a waiting export that is complete, overdue or forced. */
  lemma BeginMeans(w: World, v: nat)
    requires Phase(w, Begin(v))
    ensures Builds(Do(w, Begin(v)), v) <==> IsWaiting(w.e) && (EveryPartDone(w.e) || w.e.deadline <= w.now || v in w.workers)
    ensures Builds(Do(w, Begin(v)), v) ==> Do(w, Begin(v)).e == w.e.(status := Assembling)
    ensures !Builds(Do(w, Begin(v)), v) ==> Do(w, Begin(v)).e == w.e
  {
  }

  /** A commit makes the export ready under its token for its time to live. */
  lemma CommitMeans(w: World, m: Move)
    requires Phase(w, m) && m.Commit?
    ensures var e := Do(w, m).e;
            && e.status.Ready? && e.archive == Some(m.key) && e.token == Some(m.token) && e.consumedAt.None?
            && e.expiresAt == Some(w.now + m.ttl) && e.parts == w.e.parts && e.user == w.e.user
            && e.isPartial == IsPartial(w.e, m.report) && e.missing == MissingServices(w.e, m.report.Names())
            && m.key in Do(w, m).stored
  {
  }

  /** An attempt wins exactly when the token is still there and unspent at its update. */
  lemma SpendMeans(w: World, a: nat)
    requires Phase(w, Spend(a)) && w.attempts[a].token != ""
    ensures var v := Do(w, Spend(a));
            var unspent := w.e.token == Some(w.attempts[a].token) && w.e.consumedAt.None?;
            && (v.attempts[a].Won? <==> unspent) && (v.attempts[a].Refused? <==> !unspent)
            && v.e == (if unspent then w.e.(consumedAt := Some(w.now)) else w.e)
  {
  }

  /** Expiry takes the archive, the token and the status, and keeps who consumed it. */
  lemma ExpireMeans(w: World, x: nat)
    requires Phase(w, ExpireUpdate(x))
    ensures Do(w, ExpireUpdate(x)).e == w.e.(status := Expired, archive := None, token := None)
    ensures Phase(w, Purge) <==> IsStale(w.e, w.now)
  {
  }

  /** A provider writes its own part as it fared, without looking; a callback fills a part that
      is awaited; neither touches anything else. */
  lemma PartsMean(w: World, service: string, ok: bool, other: string)
    ensures var e, e' := w.e, Do(w, Provide(service, ok)).e;
            && e' == e.(parts := e'.parts) && e'.parts.Keys == e.parts.Keys
            && (service in e.parts ==> e'.parts[service] == if ok then PartDone else PartFailed)
            && (other in e.parts && other != service ==> e'.parts[other] == e.parts[other])
    ensures var e, e' := w.e, Do(w, PartReady(service)).e;
            && e' == e.(parts := e'.parts) && e'.parts.Keys == e.parts.Keys
            && (service in e.parts ==> e'.parts[service] == PartDone)
            && (other in e.parts && other != service ==> e'.parts[other] == e.parts[other])
    ensures Do(w, Start).e == if IsWaiting(w.e) then w.e.(status := Processing) else w.e
  {
  }

  /** A failed assembly waits for the sweep again; a winner reads what the store still has; the
      archive goes once it was read. */
  lemma StoreMeans(w: World, m: Move)
    requires Phase(w, m)
    ensures m.Abort? ==> Do(w, m).e == w.e.(status := Processing)
    ensures m.OpenArchive? ==>
              && m.a in Do(w, m).attempts && Do(w, m).stored == w.stored && Do(w, m).e == w.e
              && (Do(w, m).attempts[m.a].CarriesArchive() <==> w.attempts[m.a].key.Some? && w.attempts[m.a].key.value in w.stored)
    ensures m.CheckStore? ==>
              && m.a in Do(w, m).attempts && Do(w, m).stored == w.stored && Do(w, m).e == w.e
              && (Do(w, m).attempts[m.a].Found? <==> w.attempts[m.a].key.Some? && w.attempts[m.a].key.value in w.stored)
    ensures m.CleanUp? ==>
              && Do(w, m).e == w.e.(archive := None)
              && forall k :: k in Do(w, m).stored <==> k in w.stored && w.attempts[m.a].key != Some(k)
  {
  }

  // ----- the theorems -----

  ghost predicate Happens(w: World, ms: seq<Move>) {
    Requested(w) && ValidMoves(w, ms)
  }

  /** However workers, callbacks and sweeps interleave, at most one assembly is in flight
      and the export becomes ready, with its event, at most once. */
  lemma AssembledOnce(w: World, ms: seq<Move>)
    requires Happens(w, ms)
    ensures var t := DoAll(w, ms);
            && (forall u, v :: Builds(t, u) && Builds(t, v) ==> u == v)
            && (forall v :: Builds(t, v) ==> t.e.status.Assembling? && t.ready == [])
            && |t.ready| <= 1
            && (t.ready != [] <==> t.e.status.Ready? || t.e.status.Expired?)
  {
    RacesAreSound(w, ms);
  }

  /** A ready event is the last word: nothing is assembled or announced after it. */
  lemma {:induction false} ReadyIsFinal(w: World, ms: seq<Move>)
    requires Sound(w) && w.ready != [] && ValidMoves(w, ms)
    ensures DoAll(w, ms).ready == w.ready
    ensures forall v :: !Builds(DoAll(w, ms), v)
    decreases |ms|
  {
    if ms == [] {
      assert forall v :: Builds(w, v) ==> w.e.status.Assembling?;
    } else {
      var m := ms[0];
      MoveKeeps(w, m);
      assert forall v :: !Builds(w, v);
      assert forall v :: Builds(w, v) <==> v in w.workers && w.workers[v].InAssembly?;
      ReadyIsFinal(Do(w, m), ms[1..]);
    }
  }

  /** Assembly begins only when every part is DONE or the deadline has passed, although a
      forced caller does not look at either under the lock. */
  lemma BeginsWhenDue(w: World, ms: seq<Move>, v: nat)
    requires Happens(w, ms) && Phase(DoAll(w, ms), Begin(v))
    ensures var t := DoAll(w, ms);
            Builds(Do(t, Begin(v)), v) ==> t.e.AllPartsDone() || t.e.deadline <= t.now
  {
    RacesAreSound(w, ms);
  }

  /** At most one response carries the archive; it answers the minted token. */
  lemma OneArchive(w: World, ms: seq<Move>, a: nat, b: nat)
    requires Happens(w, ms)
    requires a in DoAll(w, ms).attempts && DoAll(w, ms).attempts[a].CarriesArchive()
    ensures b in DoAll(w, ms).attempts && DoAll(w, ms).attempts[b].CarriesArchive() ==> a == b
    ensures DoAll(w, ms).ready == [DoAll(w, ms).attempts[a].token] && DoAll(w, ms).e.consumedAt.Some?
  {
    RacesAreSound(w, ms);
    assert Winner(DoAll(w, ms), a);
    if b in DoAll(w, ms).attempts && DoAll(w, ms).attempts[b].CarriesArchive() {
      assert Winner(DoAll(w, ms), b);
    }
  }

  ghost function Download(a: nat, user: nat, token: string): seq<Move> {
    [Look(a, user, token), CheckStore(a), Spend(a), OpenArchive(a)]
  }

  /** Refusals never spend the token: whatever was refused before, as long as nobody has won,
      the window is open and the archive is in the store, the subject's token still
      delivers the archive. */
  lemma RefusalsNeverSpend(w: World, ms: seq<Move>, a: nat)
    requires Happens(w, ms)
    requires var t := DoAll(w, ms);
             && t.ready != [] && a !in t.attempts
             && (forall b :: !Winner(t, b))
             && t.e.expiresAt.Some? && t.now < t.e.expiresAt.value && InStore(t, t.e.archive)
    ensures var t := DoAll(w, ms);
            var download := Download(a, t.e.user, t.ready[0]);
            && ValidMoves(t, download)
            && a in DoAll(t, download).attempts && DoAll(t, download).attempts[a].CarriesArchive()
  {
    RacesAreSound(w, ms);
    var t := DoAll(w, ms);
    assert t.e.consumedAt.None? && t.expirers == [] && t.e.token == Some(t.ready[0]);
    DownloadServes(t, a, t.ready[0]);
  }

  /** A download of a ready, unspent, stored export inside its window. */
  lemma DownloadServes(t: World, a: nat, token: string)
    requires a !in t.attempts && token != "" && t.e.token == Some(token) && t.e.consumedAt.None? && t.e.status.Ready?
    requires !TooLate(t) && InStore(t, t.e.archive)
    ensures var download := Download(a, t.e.user, token);
            && ValidMoves(t, download)
            && a in DoAll(t, download).attempts && DoAll(t, download).attempts[a].CarriesArchive()
  {
    var download := Download(a, t.e.user, token);
    var t1 := Do(t, download[0]);
    assert t1.attempts[a] == Looked(token, t.e.archive);
    var t2 := Do(t1, download[1]);
    assert t2.attempts[a] == Found(token, t.e.archive);
    var t3 := Do(t2, download[2]);
    assert t3.attempts[a] == Won(token, t.e.archive);
    Prepend(t3, download[3], []);
    Prepend(t2, download[2], [download[3]]);
    Prepend(t1, download[1], [download[2], download[3]]);
    Prepend(t, download[0], [download[1], download[2], download[3]]);
    assert [download[0]] + [download[1], download[2], download[3]] == download;
  }

  lemma Prepend(w: World, m: Move, ms: seq<Move>)
    requires Phase(w, m) && ValidMoves(Do(w, m), ms)
    ensures ValidMoves(w, [m] + ms) && DoAll(w, [m] + ms) == DoAll(Do(w, m), ms)
  {
    assert ([m] + ms)[1..] == ms;
  }

  /** The limit of "exactly once": the purge takes consumed rows that still name an archive,
      so between the winner's update and its read it removes the archive. The winner then
      answers without it and the token is spent. */
  lemma PurgeStarvesWinner(w: World, ms: seq<Move>, a: nat)
    requires Happens(w, ms)
    requires var t := DoAll(w, ms);
             a in t.attempts && t.attempts[a].Won? && t.e.archive.Some? && t.attempts[a].key == t.e.archive
    ensures var t := DoAll(w, ms);
            var purge := [Purge, ExpireDelete(|t.expirers|), OpenArchive(a)];
            ValidMoves(t, purge) && Starved(DoAll(t, purge), a) && Sound(DoAll(t, purge))
  {
    RacesAreSound(w, ms);
    var t := DoAll(w, ms);
    assert Winner(t, a);
    var purge := [Purge, ExpireDelete(|t.expirers|), OpenArchive(a)];
    var t1 := Do(t, purge[0]);
    var t2 := Do(t1, purge[1]);
    Prepend(t2, purge[2], []);
    Prepend(t1, purge[1], [purge[2]]);
    Prepend(t, purge[0], [purge[1], purge[2]]);
    assert [purge[0]] + [purge[1], purge[2]] == purge;
    RacesAreSound(t, purge);
  }

  /** The winner has answered, without the archive. */
  ghost predicate Starved(w: World, a: nat) {
    a in w.attempts && w.attempts[a].Answered? && !w.attempts[a].archive
  }

  /** After that no response ever carries the archive. */
  lemma {:induction false} StarvedForEver(w: World, ms: seq<Move>, a: nat)
    requires Sound(w) && Starved(w, a) && ValidMoves(w, ms)
    ensures forall b :: b in DoAll(w, ms).attempts ==> !DoAll(w, ms).attempts[b].CarriesArchive()
    decreases |ms|
  {
    if ms == [] {
      assert Winner(w, a);
      assert forall b :: b in w.attempts && w.attempts[b].CarriesArchive() ==> Winner(w, b);
    } else {
      MoveKeeps(w, ms[0]);
      StarvedForEver(Do(w, ms[0]), ms[1..], a);
    }
  }

  // ----- exactly when the winner is served -----

  /** A move that takes the object `key` out of the store. */
  predicate Removes(w: World, m: Move, key: string)
    requires Phase(w, m)
  {
    m == Lose(key) || (m.ExpireDelete? && w.expirers[m.x].key == Some(key))
  }

  ghost predicate Removed(w: World, ms: seq<Move>, key: string)
    requires ValidMoves(w, ms)
    decreases |ms|
  {
    ms != [] && (Removes(w, ms[0], key) || Removed(Do(w, ms[0]), ms[1..], key))
  }

  ghost predicate HasWonKey(w: World, a: nat, key: string) {
    a in w.attempts && w.attempts[a].Won? && w.attempts[a].key == Some(key)
  }

  /** While the winner has not read the archive, nobody else touches the store but an
      expiry that holds its key, or a loss; nothing is stored again. */
  lemma StoreWhileWon(w: World, m: Move, a: nat, key: string)
    requires Sound(w) && Phase(w, m) && HasWonKey(w, a, key) && m != OpenArchive(a)
    ensures HasWonKey(Do(w, m), a, key)
    ensures key in Do(w, m).stored <==> key in w.stored && !Removes(w, m, key)
  {
    assert Winner(w, a);
    if m.Commit? {
      assert Builds(w, m.w);
      assert false;
    }
    if m.CleanUp? {
      assert Winner(w, m.a);
      assert false;
    }
  }

  /** The winner's response carries the archive if and only if the archive was in the store
      when the token was spent and no expiry or loss removed it before the read. */
  lemma {:induction false} ServedIff(w: World, ms: seq<Move>, a: nat, key: string)
    requires Sound(w) && HasWonKey(w, a, key) && ValidMoves(w, ms) && OpenArchive(a) !in ms
    ensures HasWonKey(DoAll(w, ms), a, key)
    ensures Do(DoAll(w, ms), OpenArchive(a)).attempts[a].CarriesArchive() <==> key in w.stored && !Removed(w, ms, key)
    decreases |ms|
  {
    if ms != [] {
      MoveKeeps(w, ms[0]);
      StoreWhileWon(w, ms[0], a, key);
      assert OpenArchive(a) !in ms[1..];
      ServedIff(Do(w, ms[0]), ms[1..], a, key);
    }
  }

  lemma {:induction false} Concat(w: World, ms: seq<Move>, ns: seq<Move>)
    requires ValidMoves(w, ms) && ValidMoves(DoAll(w, ms), ns)
    ensures ValidMoves(w, ms + ns) && DoAll(w, ms + ns) == DoAll(DoAll(w, ms), ns)
    decreases |ms|
  {
    if ms == [] {
      assert ms + ns == ns;
    } else {
      Concat(Do(w, ms[0]), ms[1..], ns);
      Prepend(w, ms[0], ms[1..] + ns);
      assert [ms[0]] + (ms[1..] + ns) == ms + ns;
    }
  }

  const EMPTY_REPORT := RegistryReport("", [], [], {}, true)

  const NEW_EXPORT := Export(7, ExportPending, "c", [], map[], 0, EXPORT_WINDOW, None, None, None, None, false, [])

  const NEW_WORLD := World(NEW_EXPORT, 0, {}, [], map[], map[], [])

  /** A fresh export is assembled. */
  lemma ExportIsMinted() returns (ms: seq<Move>)
    ensures Happens(NEW_WORLD, ms)
    ensures var w := DoAll(NEW_WORLD, ms);
            && w.e.user == 7 && w.e.status.Ready? && w.e.token == Some("t") && w.e.consumedAt.None? && !TooLate(w)
            && w.e.archive == Some("k") && w.stored == {"k"} && w.attempts == map[]
  {
    var begin, commit := Begin(0), Commit(0, EMPTY_REPORT, "k", "t", 60);
    var w1 := Do(NEW_WORLD, begin);
    assert w1.workers == map[0 := InAssembly];
    Prepend(w1, commit, []);
    Prepend(NEW_WORLD, begin, [commit] + []);
    ms := [begin] + ([commit] + []);
  }

  /** A first download up to the conditional update. */
  lemma FirstDownloadWins(w: World) returns (ms: seq<Move>)
    requires w.e.user == 7 && w.e.status.Ready? && w.e.token == Some("t") && w.e.consumedAt.None? && !TooLate(w)
    requires w.e.archive == Some("k") && w.stored == {"k"} && w.attempts == map[]
    ensures ValidMoves(w, ms) && HasWonKey(DoAll(w, ms), 0, "k") && DoAll(w, ms).e.archive == Some("k")
  {
    var look, seen, spend := Look(0, 7, "t"), CheckStore(0), Spend(0);
    var w1 := Do(w, look);
    assert w1.attempts[0] == Looked("t", Some("k"));
    var w2 := Do(w1, seen);
    assert w2.attempts[0] == Found("t", Some("k"));
    Prepend(w2, spend, []);
    Prepend(w1, seen, [spend] + []);
    Prepend(w, look, [seen] + ([spend] + []));
    ms := [look] + ([seen] + ([spend] + []));
  }

  /** A run in which a token is spent and the archive is still stored. */
  lemma TokenIsSpent() returns (ms: seq<Move>)
    ensures Happens(NEW_WORLD, ms)
    ensures HasWonKey(DoAll(NEW_WORLD, ms), 0, "k") && DoAll(NEW_WORLD, ms).e.archive == Some("k")
  {
    var mint := ExportIsMinted();
    var download := FirstDownloadWins(DoAll(NEW_WORLD, mint));
    Concat(NEW_WORLD, mint, download);
    ms := mint + download;
  }

  /** And one in which the purge comes between the update and the read: the token is spent,
      the response is empty. */
  lemma TokenSpentForNothing() returns (ms: seq<Move>)
    ensures Happens(NEW_WORLD, ms) && Sound(DoAll(NEW_WORLD, ms)) && Starved(DoAll(NEW_WORLD, ms), 0)
  {
    var before := TokenIsSpent();
    var t := DoAll(NEW_WORLD, before);
    var purge := [Purge, ExpireDelete(|t.expirers|), OpenArchive(0)];
    PurgeStarvesWinner(NEW_WORLD, before, 0);
    Concat(NEW_WORLD, before, purge);
    ms := before + purge;
  }
}
