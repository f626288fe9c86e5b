/** Racing calls of `initiate_closure` (orchestrator.py): the test for a pending closure and
    the insert are separate steps of each call, and no constraint stands behind the test. */
module Initiations {
  import opened Ledger
  import opened Protocol
  import opened Runs
  import opened Micro
  import opened Invariants

  /** A call that passed both tests when the table held `seen` closures, or has ended. */
  datatype Call =
    | Checked(user: UserId, trigger: Trigger, seen: nat)
    | Ended(user: UserId, result: InitiateResult)

  datatype World = World(s: State, calls: map<nat, Call>)

  datatype Move =
    | Check(t: nat, user: UserId, trigger: Trigger)
    | Insert(t: nat, cfg: Config, revocation: Revocation, emitOk: bool)
    | Elsewhere(step: Step)

  ghost predicate CanMove(w: World, m: Move) {
    match m
    case Check(t, _, _) => t !in w.calls
    case Insert(t, _, _, _) => t in w.calls && w.calls[t].Checked?
    case Elsewhere(step) => Enabled(w.s, step)
  }

  ghost function Next(w: World, m: Move): World
    requires CanMove(w, m)
  {
    match m
    case Check(t, user, trigger) =>
      w.(calls := w.calls[t := if IsHeld(w.s, user) then Ended(user, HeldByLaw)
                               else if HasActiveClosure(w.s, user) then Ended(user, AlreadyPending)
                               else Checked(user, trigger, |w.s.closures|)])
    case Insert(t, cfg, revocation, emitOk) =>
      var (s', result) := ClosureUnit(w.s, cfg, w.calls[t].user, w.calls[t].trigger, revocation, emitOk);
      World(s', w.calls[t := Ended(w.calls[t].user, result)])
    case Elsewhere(step) => w.(s := Apply(w.s, step))
  }

  ghost predicate ValidMoves(w: World, ms: seq<Move>)
    decreases |ms|
  {
    |ms| == 0 || (CanMove(w, ms[0]) && ValidMoves(Next(w, ms[0]), ms[1..]))
  }

  ghost function After(w: World, ms: seq<Move>): World
    requires ValidMoves(w, ms)
    decreases |ms|
  {
    if |ms| == 0 then w else After(Next(w, ms[0]), ms[1..])
  }

  // ----- what is at stake -----

  /** No user has two closures in GRACE or DELETING. */
  ghost predicate OneEach(s: State) {
    forall c, d :: 0 <= c < d < |s.closures| && s.closures[c].head.user == s.closures[d].head.user ==>
      !(s.closures[c].Active() && s.closures[d].Active())
  }

  ghost predicate AlwaysOneEach(w: World, ms: seq<Move>)
    requires ValidMoves(w, ms)
    decreases |ms|
  {
    OneEach(w.s) && (|ms| == 0 || AlwaysOneEach(Next(w, ms[0]), ms[1..]))
  }

  /** An active closure of the user begun after the call made its tests. */
  ghost predicate Overtaken(s: State, call: Call) {
    call.Checked? && exists c :: call.seen <= c < |s.closures| && s.closures[c].head.user == call.user && s.closures[c].Active()
  }

  /** The move commits a call that another one has overtaken. */
  ghost predicate Races(w: World, m: Move)
    requires CanMove(w, m)
  {
    && m.Insert? && Overtaken(w.s, w.calls[m.t])
    && ClosureUnit(w.s, m.cfg, w.calls[m.t].user, w.calls[m.t].trigger, m.revocation, m.emitOk).1.Initiated?
  }

  ghost predicate Serial(w: World, ms: seq<Move>)
    requires ValidMoves(w, ms)
    decreases |ms|
  {
    |ms| == 0 || (!Races(w, ms[0]) && Serial(Next(w, ms[0]), ms[1..]))
  }

  // ----- what every serial move keeps -----

  /** Closures the call saw are none of the user's active ones, now as then. */
  ghost predicate CallSound(s: State, call: Call) {
    call.Checked? ==>
      && call.seen <= |s.closures|
      && forall c :: 0 <= c < call.seen && s.closures[c].head.user == call.user ==> !s.closures[c].Active()
  }

  ghost predicate WorldSound(w: World) {
    Inv(w.s) && forall t :: t in w.calls ==> CallSound(w.s, w.calls[t])
  }

  lemma CallStaysSound(s: State, s': State, call: Call)
    requires CallSound(s, call) && Evolves(s, s')
    ensures CallSound(s', call)
  {
    if call.Checked? {
      forall c | 0 <= c < call.seen && s'.closures[c].head.user == call.user ensures !s'.closures[c].Active() {
        assert ClosureEvolves(s.closures[c], s'.closures[c]);
      }
    }
  }

  /** A call that nobody has overtaken finds no active closure of its user. */
  lemma NotOvertaken(s: State, call: Call)
    requires CallSound(s, call) && call.Checked? && !Overtaken(s, call)
    ensures !HasActiveClosure(s, call.user)
  {
    forall k | k in s.closures && k.head.user == call.user ensures !k.Active() {
      var c :| 0 <= c < |s.closures| && s.closures[c] == k;
    }
  }

  lemma InsertKeeps(s: State, call: Call, cfg: Config, revocation: Revocation, emitOk: bool)
    requires Inv(s) && call.Checked?
    requires var (t, result) := ClosureUnit(s, cfg, call.user, call.trigger, revocation, emitOk);
             result.Initiated? ==> !HasActiveClosure(s, call.user)
    ensures var t := ClosureUnit(s, cfg, call.user, call.trigger, revocation, emitOk).0;
            Inv(t) && Evolves(s, t)
  {
    EvolvesReflexive(s);
    if ClosureUnit(s, cfg, call.user, call.trigger, revocation, emitOk).1.Initiated? {
      ClosureUnitWrites(s, cfg, call.user, call.trigger, revocation, emitOk);
      var t := ClosureUnit(s, cfg, call.user, call.trigger, revocation, emitOk).0;
      var ws :| CanPutAll(s, ws) && PutAll(s, ws) == t;
      WritesKeep(s, ws);
      WritesEvolve(s, ws);
    }
  }

  lemma TablesKept(w: World, m: Move)
    requires WorldSound(w) && CanMove(w, m) && !Races(w, m)
    ensures Inv(Next(w, m).s) && Evolves(w.s, Next(w, m).s)
  {
    EvolvesReflexive(w.s);
    match m
    case Check(_, _, _) =>
    case Insert(t, cfg, revocation, emitOk) =>
      if !Overtaken(w.s, w.calls[t]) {
        NotOvertaken(w.s, w.calls[t]);
      }
      InsertKeeps(w.s, w.calls[t], cfg, revocation, emitOk);
    case Elsewhere(step) => StepKeeps(w.s, step);
  }

  lemma MoveKeeps(w: World, m: Move)
    requires WorldSound(w) && CanMove(w, m) && !Races(w, m)
    ensures WorldSound(Next(w, m)) && Evolves(w.s, Next(w, m).s)
  {
    TablesKept(w, m);
    var v := Next(w, m);
    forall t | t in v.calls ensures CallSound(v.s, v.calls[t]) {
      if t in w.calls && v.calls[t] == w.calls[t] {
        CallStaysSound(w.s, v.s, w.calls[t]);
      } else if m.Check? {
        NewCallSound(w.s, v.calls[t]);
      }
    }
  }

  lemma NewCallSound(s: State, call: Call)
    requires call.Checked? ==> call.seen == |s.closures| && !HasActiveClosure(s, call.user)
    ensures CallSound(s, call)
  {
    if call.Checked? {
      forall c | 0 <= c < call.seen && s.closures[c].head.user == call.user ensures !s.closures[c].Active() {
        assert s.closures[c] in s.closures;
      }
    }
  }

  lemma SoundMeansOneEach(s: State)
    requires Inv(s)
    ensures OneEach(s)
  {
  }

  /** The overtaken call puts a second active closure beside the first. */
  lemma RaceLeavesTwo(w: World, m: Move)
    requires CanMove(w, m) && Races(w, m)
    ensures !OneEach(Next(w, m).s)
  {
    var call, t := w.calls[m.t], Next(w, m).s;
    var c :| call.seen <= c < |w.s.closures| && w.s.closures[c].head.user == call.user && w.s.closures[c].Active();
    var d := |w.s.closures|;
    assert t.closures[c] == w.s.closures[c];
    assert t.closures[c].Active() && t.closures[d].Active() && t.closures[c].head.user == t.closures[d].head.user;
  }

  /** Exactly when the guard holds: over every interleaving of split calls with each other and
      with the machine, no user ever has two active closures if and only if no call commits
      after another closure of its user, begun since its tests, has become active. */
  lemma {:induction false} OneEachIff(w: World, ms: seq<Move>)
    requires WorldSound(w) && ValidMoves(w, ms)
    ensures AlwaysOneEach(w, ms) <==> Serial(w, ms)
    ensures Serial(w, ms) ==> WorldSound(After(w, ms))
    decreases |ms|
  {
    SoundMeansOneEach(w.s);
    if |ms| != 0 {
      if Races(w, ms[0]) {
        RaceLeavesTwo(w, ms[0]);
      } else {
        MoveKeeps(w, ms[0]);
        OneEachIff(Next(w, ms[0]), ms[1..]);
      }
    }
  }

  /** From any reachable state, before the first call. */
  lemma GuardHoldsIff(s: State, ms: seq<Move>)
    requires Reachable(s) && ValidMoves(World(s, map[]), ms)
    ensures AlwaysOneEach(World(s, map[]), ms) <==> Serial(World(s, map[]), ms)
  {
    ReachableIsSound(s);
    OneEachIff(World(s, map[]), ms);
  }

  /** A call that nobody comes between is one atomic `initiate_closure`. */
  lemma AloneIsAtomic(w: World, t: nat, user: UserId, trigger: Trigger, cfg: Config, revocation: Revocation, emitOk: bool)
    requires t !in w.calls
    ensures var v := Next(w, Check(t, user, trigger));
            var (s', result) := InitiateClosure(w.s, cfg, user, trigger, revocation, emitOk);
            && (v.calls[t].Ended? ==> v.s == s' && v.calls[t].result == result)
            && (v.calls[t].Checked? ==>
                  var u := Next(v, Move.Insert(t, cfg, revocation, emitOk));
                  u.s == s' && u.calls[t] == Ended(user, result))
  {
  }

  // ----- two calls at once -----

  lemma Prepend(w: World, m: Move, ms: seq<Move>)
    requires CanMove(w, m) && ValidMoves(Next(w, m), ms)
    ensures ValidMoves(w, [m] + ms) && After(w, [m] + ms) == After(Next(w, m), ms)
  {
    assert ([m] + ms)[1..] == ms;
  }

  /** A user who closes the account twice at the same moment has two active closures. */
  lemma TwoAtOnce(cfg: Config) returns (ms: seq<Move>)
    ensures ValidMoves(World(EMPTY, map[]), ms) && !OneEach(After(World(EMPTY, map[]), ms).s)
  {
    var w := World(EMPTY, map[]);
    var a, b := Check(0, 7, Manual), Check(1, 7, Manual);
    var c, d := Move.Insert(0, cfg, Revokes, true), Move.Insert(1, cfg, Revokes, true);
    var w2 := Next(Next(w, a), b);
    assert w2.calls[0] == Checked(7, Manual, 0) && w2.calls[1] == Checked(7, Manual, 0);
    var w3 := Next(w2, c);
    assert w3.s.closures == [NewClosure(EMPTY, cfg, 7, Manual)] && w3.s.closures[0].Active();
    assert Overtaken(w3.s, w3.calls[1]);
    RaceLeavesTwo(w3, d);
    Prepend(w3, d, []);
    Prepend(w2, c, [d] + []);
    Prepend(Next(w, a), b, [c] + ([d] + []));
    Prepend(w, a, [b] + ([c] + ([d] + [])));
    ms := [a] + ([b] + ([c] + ([d] + [])));
  }
}
