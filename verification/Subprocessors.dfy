/** The subprocessor ledger (subprocessors.py and `ErasureRequest.fully_erased_by`):
    one contractual deletion window per declared processor per erasure. */
module Subprocessors {
  import opened Common

  const DAY := 86400

  datatype ProcessorEntry = BareName(name: string) | Windowed(name: string, windowDays: nat)

  function EntryWindow(e: ProcessorEntry): nat {
    match e
    case BareName(_) => 0
    case Windowed(_, days) => days
  }

  datatype ObligationState = WindowOpen | ConfirmedDeleted | Overdue
  datatype Obligation = Obligation(windowDays: nat, recordedAt: int, dueAt: int, state: ObligationState)

  /** The declared processors as (name, window) pairs, first declaration of a name wins.
      An empty `only` asks for all of them. */
  function DeclaredPairs(entries: seq<ProcessorEntry>, only: set<string>): seq<(string, nat)> {
    if entries == [] then []
    else
      var n := |entries| - 1;
      var rest := DeclaredPairs(entries[..n], only);
      var e := entries[n];
      if e.name == "" || e.name in PairNames(rest) || (only != {} && e.name !in only) then rest
      else rest + [(e.name, EntryWindow(e))]
  }

  function PairNames(pairs: seq<(string, nat)>): set<string> {
    set p | p in pairs :: p.0
  }

  /** Fold of get_or_create over the pairs. */
  function Recorded(obligations: map<string, Obligation>, pairs: seq<(string, nat)>, anchor: int, now: int)
    : map<string, Obligation>
  {
    if pairs == [] then obligations
    else
      var n := |pairs| - 1;
      var rest := Recorded(obligations, pairs[..n], anchor, now);
      if pairs[n].0 in rest then rest
      else rest[pairs[n].0 := NewObligation(pairs[n].1, anchor, now)]
  }

  function NewObligation(windowDays: nat, anchor: int, now: int): Obligation {
    Obligation(windowDays, now, anchor + windowDays * DAY, WindowOpen)
  }

  lemma OneMoreKey(m: map<string, Obligation>, k: string, v: Obligation)
    requires k !in m
    ensures |m[k := v].Keys| == |m.Keys| + 1
  {
    assert m[k := v].Keys == m.Keys + {k};
  }

  method DeclaredSubprocessors(entries: seq<ProcessorEntry>, only: set<string>) returns (pairs: seq<(string, nat)>)
    ensures pairs == DeclaredPairs(entries, only)
  {
    pairs := [];
    var seen: set<string> := {};
    for i := 0 to |entries|
      invariant pairs == DeclaredPairs(entries[..i], only)
      invariant seen == PairNames(pairs)
    {
      assert entries[..i + 1][..i] == entries[..i];
      var e := entries[i];
      if !(e.name == "" || e.name in seen || (only != {} && e.name !in only)) {
        seen := seen + {e.name};
        pairs := pairs + [(e.name, EntryWindow(e))];
      }
    }
    assert entries[..|entries|] == entries;
  }

  method RecordObligations(obligations: map<string, Obligation>, entries: seq<ProcessorEntry>, only: set<string>,
                           completedAt: Option<int>, now: int)
    returns (after: map<string, Obligation>, written: nat)
    ensures after == Recorded(obligations, DeclaredPairs(entries, only), Anchor(completedAt, now), now)
    ensures written == |after.Keys| - |obligations.Keys|
  {
    var pairs := DeclaredSubprocessors(entries, only);
    var anchor := Anchor(completedAt, now);
    after, written := obligations, 0;
    for i := 0 to |pairs|
      invariant after == Recorded(obligations, pairs[..i], anchor, now)
      invariant written == |after.Keys| - |obligations.Keys|
    {
      assert pairs[..i + 1][..i] == pairs[..i];
      var (name, window) := pairs[i];
      if name !in after {
        OneMoreKey(after, name, NewObligation(window, anchor, now));
        after := after[name := NewObligation(window, anchor, now)];
        written := written + 1;
      }
    }
    assert pairs[..|pairs|] == pairs;
  }

  function Anchor(completedAt: Option<int>, now: int): int {
    if completedAt.Some? then completedAt.value else now
  }

  /** The latest of our own deadline and every processor's. */
  ghost predicate IsLatest(latest: int, dueAt: int, obligations: map<string, Obligation>) {
    && dueAt <= latest
    && (forall p :: p in obligations ==> obligations[p].dueAt <= latest)
    && (latest == dueAt || exists p :: p in obligations && obligations[p].dueAt == latest)
  }

  method FullyErasedBy(dueAt: int, obligations: map<string, Obligation>) returns (latest: int)
    ensures IsLatest(latest, dueAt, obligations)
  {
    latest := dueAt;
    var todo := obligations.Keys;
    while todo != {}
      invariant todo <= obligations.Keys
      invariant IsLatest(latest, dueAt, map p | p in obligations && p !in todo :: obligations[p])
      decreases todo
    {
      var p :| p in todo;
      ghost var seen := map q | q in obligations && q !in todo :: obligations[q];
      todo := todo - {p};
      ghost var seen' := map q | q in obligations && q !in todo :: obligations[q];
      assert seen' == seen[p := obligations[p]];
      if obligations[p].dueAt > latest {
        latest := obligations[p].dueAt;
        assert seen'[p].dueAt == latest;
      }
    }
    assert (map p | p in obligations && p !in todo :: obligations[p]) == obligations;
  }

  // ----- what the ledger promises -----

  /** Names are distinct, and they are exactly the wanted, non-blank declared names. */
  lemma {:induction false} PairsAreTheDeclaredNames(entries: seq<ProcessorEntry>, only: set<string>)
    ensures forall i, j :: 0 <= i < j < |DeclaredPairs(entries, only)| ==>
              DeclaredPairs(entries, only)[i].0 != DeclaredPairs(entries, only)[j].0
    ensures forall name :: name in PairNames(DeclaredPairs(entries, only)) <==>
              name != "" && (only == {} || name in only) && exists e :: e in entries && e.name == name
  {
    if entries != [] {
      var n := |entries| - 1;
      PairsAreTheDeclaredNames(entries[..n], only);
      assert entries == entries[..n] + [entries[n]];
      var rest := DeclaredPairs(entries[..n], only);
      var e := entries[n];
      forall name
        ensures name in PairNames(DeclaredPairs(entries, only)) <==>
                  name != "" && (only == {} || name in only) && exists e :: e in entries && e.name == name
      {
        assert name in PairNames(rest + [(e.name, EntryWindow(e))]) <==> name in PairNames(rest) || name == e.name by {
          assert (e.name, EntryWindow(e)) in rest + [(e.name, EntryWindow(e))];
          assert forall p :: p in rest ==> p in rest + [(e.name, EntryWindow(e))];
        }
        assert (exists x :: x in entries && x.name == name)
               <==> e.name == name || exists x :: x in entries[..n] && x.name == name;
      }
      forall i | 0 <= i < |rest| && e.name !in PairNames(rest) ensures rest[i].0 != e.name {
        assert rest[i] in rest;
      }
    }
  }

  /** The first entry of a name. */
  ghost predicate FirstEntry(entries: seq<ProcessorEntry>, name: string, i: nat) {
    i < |entries| && entries[i].name == name && forall j :: 0 <= j < i ==> entries[j].name != name
  }

  /** A bare name has no window; otherwise it is the one declared first. */
  lemma {:induction false} WindowsAreDeclared(entries: seq<ProcessorEntry>, only: set<string>, name: string, window: nat)
    requires (name, window) in DeclaredPairs(entries, only)
    ensures exists i: nat :: FirstEntry(entries, name, i) && window == if entries[i].BareName? then 0 else entries[i].windowDays
  {
    var n := |entries| - 1;
    var rest := DeclaredPairs(entries[..n], only);
    if (name, window) in rest {
      WindowsAreDeclared(entries[..n], only, name, window);
      var i: nat :| FirstEntry(entries[..n], name, i) && window == if entries[..n][i].BareName? then 0 else entries[..n][i].windowDays;
      assert FirstEntry(entries, name, i);
    } else {
      PairsAreTheDeclaredNames(entries[..n], only);
      forall j | 0 <= j < n ensures entries[j].name != name {
        assert entries[..n][j] in entries[..n];
      }
      assert FirstEntry(entries, name, n);
    }
  }

  /** Recording keeps what is there and adds exactly the missing names. */
  lemma {:induction false} RecordedContents(obligations: map<string, Obligation>, pairs: seq<(string, nat)>, anchor: int, now: int)
    ensures Recorded(obligations, pairs, anchor, now).Keys == obligations.Keys + PairNames(pairs)
    ensures forall p :: p in obligations ==> Recorded(obligations, pairs, anchor, now)[p] == obligations[p]
    ensures forall p :: p in Recorded(obligations, pairs, anchor, now) && p !in obligations ==>
              var o := Recorded(obligations, pairs, anchor, now)[p];
              && (p, o.windowDays) in pairs && o.recordedAt == now && o.dueAt == anchor + o.windowDays * 86400 && o.state.WindowOpen?
  {
    if pairs != [] {
      var n := |pairs| - 1;
      RecordedContents(obligations, pairs[..n], anchor, now);
      assert pairs == pairs[..n] + [pairs[n]];
      assert PairNames(pairs) == PairNames(pairs[..n]) + {pairs[n].0};
    }
  }

  /** Recording again, for all the processors or any subset and at any later time, changes nothing. */
  lemma {:induction false} RecordingIsIdempotent(obligations: map<string, Obligation>, entries: seq<ProcessorEntry>,
                              only: set<string>, anchor: int, now: int, again: set<string>, anchor': int, now': int)
    requires only == {} || (again != {} && again <= only)
    ensures var once := Recorded(obligations, DeclaredPairs(entries, only), anchor, now);
            Recorded(once, DeclaredPairs(entries, again), anchor', now') == once
  {
    var once := Recorded(obligations, DeclaredPairs(entries, only), anchor, now);
    RecordedContents(obligations, DeclaredPairs(entries, only), anchor, now);
    PairsAreTheDeclaredNames(entries, only);
    PairsAreTheDeclaredNames(entries, again);
    AllPresent(once, DeclaredPairs(entries, again), anchor', now');
  }

  lemma {:induction false} AllPresent(obligations: map<string, Obligation>, pairs: seq<(string, nat)>, anchor: int, now: int)
    requires PairNames(pairs) <= obligations.Keys
    ensures Recorded(obligations, pairs, anchor, now) == obligations
  {
    if pairs != [] {
      var n := |pairs| - 1;
      assert pairs[n].0 in PairNames(pairs);
      assert PairNames(pairs[..n]) <= PairNames(pairs);
      AllPresent(obligations, pairs[..n], anchor, now);
    }
  }

  /** The longest declared window; 0 when nothing is declared. */
  ghost predicate IsLongest(window: nat, pairs: seq<(string, nat)>) {
    && (forall p :: p in pairs ==> p.1 <= window)
    && (if pairs == [] then window == 0 else exists p :: p in pairs && p.1 == window)
  }

  function Later(a: int, b: int): int {
    if a < b then b else a
  }

  /** The declared pairs whose name has no obligation yet. */
  function Unrecorded(pairs: seq<(string, nat)>, obligations: map<string, Obligation>): (r: seq<(string, nat)>)
    ensures forall p :: p in r <==> p in pairs && p.0 !in obligations
  {
    if pairs == [] then []
    else
      var n := |pairs| - 1;
      assert pairs == pairs[..n] + [pairs[n]];
      Unrecorded(pairs[..n], obligations) + if pairs[n].0 in obligations then [] else [pairs[n]]
  }

  lemma LatestIsUnique(a: int, b: int, dueAt: int, obligations: map<string, Obligation>)
    requires IsLatest(a, dueAt, obligations) && IsLatest(b, dueAt, obligations)
    ensures a == b
  {
  }

  /** The date "erased everywhere" after a recording, whatever was recorded before: the later of
      what it was and the anchor plus the longest window among the processors not yet
      recorded. An obligation recorded earlier keeps its date. */
  lemma ErasedEverywhereBy(obligations: map<string, Obligation>, entries: seq<ProcessorEntry>, dueAt: int, anchor: int, now: int,
                           before: int, window: nat, latest: int)
    requires IsLatest(before, dueAt, obligations)
    requires IsLongest(window, Unrecorded(DeclaredPairs(entries, {}), obligations))
    requires IsLatest(latest, dueAt, Recorded(obligations, DeclaredPairs(entries, {}), anchor, now))
    ensures latest == if Unrecorded(DeclaredPairs(entries, {}), obligations) == [] then before else Later(before, anchor + window * DAY)
  {
    var pairs := DeclaredPairs(entries, {});
    var ledger := Recorded(obligations, pairs, anchor, now);
    var missing := Unrecorded(pairs, obligations);
    var value := if missing == [] then before else Later(before, anchor + window * DAY);
    RecordedContents(obligations, pairs, anchor, now);
    forall p | p in ledger ensures ledger[p].dueAt <= value {
      if p !in obligations {
        assert (p, ledger[p].windowDays) in missing;
      }
    }
    if value != before {
      var longest :| longest in missing && longest.1 == window;
      PairsAreTheDeclaredNames(entries, {});
      assert longest.0 in PairNames(pairs);
      SamePair(pairs, (longest.0, ledger[longest.0].windowDays), longest);
      assert ledger[longest.0].dueAt == value;
    } else if before != dueAt {
      var p :| p in obligations && obligations[p].dueAt == before;
      assert ledger[p].dueAt == before;
    }
    LatestIsUnique(latest, value, dueAt, ledger);
  }

  /** It lies before the anchor exactly when our own deadline does, every declared processor
      was recorded earlier, and every earlier date does too. */
  lemma PublishedBeforeIff(obligations: map<string, Obligation>, entries: seq<ProcessorEntry>, dueAt: int, anchor: int, now: int, latest: int)
    requires IsLatest(latest, dueAt, Recorded(obligations, DeclaredPairs(entries, {}), anchor, now))
    ensures latest < anchor <==>
              && dueAt < anchor && PairNames(DeclaredPairs(entries, {})) <= obligations.Keys
              && forall p :: p in obligations ==> obligations[p].dueAt < anchor
  {
    var pairs := DeclaredPairs(entries, {});
    var ledger := Recorded(obligations, pairs, anchor, now);
    RecordedContents(obligations, pairs, anchor, now);
    if latest < anchor {
      forall p | p in PairNames(pairs) ensures p in obligations {
        assert p in ledger && ledger[p].dueAt <= latest;
      }
      forall p | p in obligations ensures obligations[p].dueAt < anchor {
        assert ledger[p].dueAt <= latest;
      }
    }
  }

  lemma SamePair(pairs: seq<(string, nat)>, a: (string, nat), b: (string, nat))
    requires forall i, j :: 0 <= i < j < |pairs| ==> pairs[i].0 != pairs[j].0
    requires a in pairs && b in pairs && a.0 == b.0
    ensures a == b
  {
  }
}
