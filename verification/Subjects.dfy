/** Whose data is erased: the request a closure opens is about the closure's own user, and a
    restore clone repeats the subject of its source, in every reachable state. */
module Subjects {
  import opened Ledger
  import opened Runs
  import opened Micro
  import opened Invariants

  ghost predicate SubjectsExact(s: State) {
    && (forall i :: 0 <= i < |s.requests| ==> ClosureSubject(s, s.requests[i].head))
    && (forall i :: 0 <= i < |s.requests| ==> CloneSubject(s, s.requests[i].head, i))
  }

  ghost predicate ClosureSubject(s: State, h: Head) {
    h.closure.Some? ==> h.closure.value < |s.closures| && AccountOf(h, s.closures[h.closure.value].head)
  }

  ghost predicate CloneSubject(s: State, h: Head, i: nat) {
    h.source.Some? ==> h.source.value < i && h.source.value < |s.requests| && SameSubject(h, s.requests[h.source.value].head)
  }

  /** Heads never change, so a subject once right stays right. */
  lemma StaysExact(s: State, t: State, i: nat)
    requires Evolves(s, t) && i < |s.requests| && ClosureSubject(s, s.requests[i].head) && CloneSubject(s, s.requests[i].head, i)
    ensures ClosureSubject(t, t.requests[i].head) && CloneSubject(t, t.requests[i].head, i)
  {
    var h := s.requests[i].head;
    assert RequestEvolves(s.requests[i], t.requests[i]);
    if h.closure.Some? {
      assert ClosureEvolves(s.closures[h.closure.value], t.closures[h.closure.value]);
    }
    if h.source.Some? {
      assert RequestEvolves(s.requests[h.source.value], t.requests[h.source.value]);
    }
  }

  lemma WriteKeepsSubjects(s: State, w: Write)
    requires SubjectsExact(s) && CanWrite(s, w)
    ensures SubjectsExact(Put(s, w))
  {
    var t := Put(s, w);
    WriteEvolves(s, w);
    forall i | 0 <= i < |t.requests| ensures ClosureSubject(t, t.requests[i].head) && CloneSubject(t, t.requests[i].head, i) {
      if i < |s.requests| {
        StaysExact(s, t, i);
      } else {
        NewSubject(s, w);
      }
    }
  }

  lemma NewSubject(s: State, w: Write)
    requires CanWrite(s, w) && |s.requests| < |Put(s, w).requests|
    ensures |Put(s, w).requests| == |s.requests| + 1
    ensures var t := Put(s, w); var h := t.requests[|s.requests|].head;
            ClosureSubject(t, h) && CloneSubject(t, h, |s.requests|)
  {
  }

  lemma {:induction false} WritesKeepSubjects(s: State, ws: seq<Write>)
    requires SubjectsExact(s) && CanPutAll(s, ws)
    ensures SubjectsExact(PutAll(s, ws))
    decreases |ws|
  {
    if |ws| != 0 {
      WriteKeepsSubjects(s, ws[0]);
      WritesKeepSubjects(Put(s, ws[0]), ws[1..]);
    }
  }

  lemma {:induction false} RunKeepsSubjects(s: State, steps: seq<Step>)
    requires Inv(s) && SubjectsExact(s) && ValidRun(s, steps)
    ensures SubjectsExact(Run(s, steps))
    decreases |steps|
  {
    if |steps| != 0 {
      StepWrites(s, steps[0]);
      var ws :| CanPutAll(s, ws) && PutAll(s, ws) == Apply(s, steps[0]);
      WritesKeepSubjects(s, ws);
      StepKeeps(s, steps[0]);
      RunKeepsSubjects(Apply(s, steps[0]), steps[1..]);
    }
  }

  lemma ReachableSubjects(s: State)
    requires Reachable(s)
    ensures SubjectsExact(s)
  {
    var steps :| ValidRun(EMPTY, steps) && Run(EMPTY, steps) == s;
    EmptySubjects();
    RunKeepsSubjects(EMPTY, steps);
  }

  lemma EmptySubjects()
    ensures Inv(EMPTY) && SubjectsExact(EMPTY)
  {
  }

  /** In every reachable state, the request of a closure erases the account of that closure's
      user: type, key, requester, origin and grace end are the closure's own. */
  lemma ClosureErasesItsUser(s: State, pk: nat)
    requires Reachable(s) && pk < |s.requests| && s.requests[pk].head.closure.Some?
    ensures s.requests[pk].head.closure.value < |s.closures|
    ensures AccountOf(s.requests[pk].head, s.closures[s.requests[pk].head.closure.value].head)
  {
    ReachableSubjects(s);
    assert ClosureSubject(s, s.requests[pk].head);
  }

  /** Two users are never confused: a numeral names one number. */
  lemma NumeralsDiffer(text: string, m: nat, n: nat)
    requires IsNumeral(text, m) && IsNumeral(text, n)
    ensures m == n
  {
  }

  /** In every reachable state, a restore clone erases what its source erased. */
  lemma CloneErasesItsSource(s: State, pk: nat)
    requires Reachable(s) && pk < |s.requests| && s.requests[pk].head.source.Some?
    ensures s.requests[pk].head.source.value < pk
    ensures SameSubject(s.requests[pk].head, s.requests[s.requests[pk].head.source.value].head)
  {
    ReachableSubjects(s);
    assert CloneSubject(s, s.requests[pk].head, pk);
  }
}
