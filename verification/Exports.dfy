/** Data exports (orchestrator.py, models.py, tasks.py): the row, its labelling and the
    operations on it. Storage, ZIP building and mail are outside the model; the digest of
    a download token stands for the token. */
module Exports {
  import opened Common
  import opened Inventory

  datatype PartStatus = PartPending | PartDone | PartFailed
  datatype ExportStatus = ExportPending | Processing | Assembling | Ready | ExportFailed | Expired

  datatype Export = Export(user: nat, status: ExportStatus, correlation: string, expected: seq<string>,
                           parts: map<string, PartStatus>, createdAt: int, deadline: int, archive: Option<string>,
                           token: Option<string>, consumedAt: Option<int>, expiresAt: Option<int>,
                           isPartial: bool, missing: seq<string>)
  {
    predicate AllPartsDone() {
      forall s :: s in parts ==> parts[s].PartDone?
    }

    function Delivered(): set<string> {
      set s | s in parts && parts[s].PartDone?
    }
  }

  const EXPORT_WINDOW := 86400
  const COOLDOWN := 30 * 86400

  // ----- labelling -----

  /** The elements of `xs` outside `out`, in order. */
  function Without(xs: seq<string>, out: set<string>): seq<string> {
    if xs == [] then [] else Without(xs[..|xs| - 1], out) + if xs[|xs| - 1] in out then [] else [xs[|xs| - 1]]
  }

  /** Declared owners first, then the expected services nobody declares. */
  function Asked(names: seq<string>, expected: seq<string>): seq<string> {
    names + Without(expected, Elements(names))
  }

  /** `_missing_services` */
  function MissingServices(e: Export, names: seq<string>): seq<string> {
    Without(Asked(names, e.expected), e.Delivered())
  }

  /** The label `_assemble_zip` writes. */
  function IsPartial(e: Export, report: RegistryReport): bool {
    !e.AllPartsDone() || MissingServices(e, report.Names()) != [] || report.Problems() != []
  }

  lemma {:induction false} WithoutContents(xs: seq<string>, out: set<string>)
    ensures forall x :: x in Without(xs, out) <==> x in xs && x !in out
    ensures Distinct(xs) ==> Distinct(Without(xs, out))
  {
    if xs != [] {
      var n := |xs| - 1;
      WithoutContents(xs[..n], out);
      assert xs == xs[..n] + [xs[n]];
    }
  }

  lemma {:induction false} WithoutConcat(xs: seq<string>, ys: seq<string>, out: set<string>)
    ensures Without(xs + ys, out) == Without(xs, out) + Without(ys, out)
  {
    if ys == [] {
      assert xs + ys == xs;
    } else {
      assert (xs + ys)[..|xs + ys| - 1] == xs + ys[..|ys| - 1];
      WithoutConcat(xs, ys[..|ys| - 1], out);
    }
  }

  /** One part per expected service, as `request_export` creates them. */
  ghost predicate PartPerService(e: Export) {
    Distinct(e.expected) && e.parts.Keys == Elements(e.expected)
  }

  /** A declared owner or an expected service without a DONE part. */
  ghost predicate Lacks(e: Export, names: seq<string>, s: string) {
    (s in names || s in e.expected) && !(s in e.parts && e.parts[s].PartDone?)
  }

  lemma MissingContents(e: Export, names: seq<string>)
    requires Distinct(names) && Distinct(e.expected)
    ensures forall s :: s in MissingServices(e, names) <==> Lacks(e, names, s)
    ensures Distinct(MissingServices(e, names))
  {
    var rest := Without(e.expected, Elements(names));
    WithoutContents(e.expected, Elements(names));
    assert Distinct(Asked(names, e.expected)) by {
      assert forall i, j :: 0 <= i < |names| && 0 <= j < |rest| ==> names[i] in Elements(names) && rest[j] in rest;
    }
    WithoutContents(Asked(names, e.expected), e.Delivered());
  }

  /** The label is exact: the archive is partial if and only if the inventory has a problem
      or some declared owner or expected service has no DONE part; the list names exactly
      those, once each, declared owners first in inventory order. */
  lemma LabelIsExact(e: Export, report: RegistryReport)
    requires PartPerService(e) && Distinct(report.Names())
    ensures IsPartial(e, report) <==>
              report.Problems() != [] || exists s :: Lacks(e, report.Names(), s)
    ensures forall s :: s in MissingServices(e, report.Names()) <==> Lacks(e, report.Names(), s)
    ensures Distinct(MissingServices(e, report.Names()))
    ensures MissingServices(e, report.Names()) ==
              Without(report.Names(), e.Delivered()) + Without(Without(e.expected, Elements(report.Names())), e.Delivered())
  {
    var names := report.Names();
    MissingContents(e, names);
    WithoutConcat(names, Without(e.expected, Elements(names)), e.Delivered());
    if MissingServices(e, names) != [] {
      assert MissingServices(e, names)[0] in MissingServices(e, names);
    }
    if !e.AllPartsDone() {
      var s :| s in e.parts && !e.parts[s].PartDone?;
      assert Lacks(e, names, s);
    }
  }

  /** `_collecting_services`: the declared owners, then whatever else is listed, once each. */
  method CollectingServices(names: seq<string>, listed: seq<string>) returns (expected: seq<string>)
    requires Distinct(names)
    ensures names <= expected && Distinct(expected)
    ensures Elements(expected) == Elements(names) + Elements(listed)
  {
    expected := names;
    for i := 0 to |listed|
      invariant names <= expected && Distinct(expected)
      invariant Elements(expected) == Elements(names) + Elements(listed[..i])
    {
      assert Elements(listed[..i + 1]) == Elements(listed[..i]) + {listed[i]};
      if listed[i] !in expected {
        assert Elements(expected + [listed[i]]) == Elements(expected) + {listed[i]};
        expected := expected + [listed[i]];
      }
    }
    assert listed[..|listed|] == listed;
  }

  // ----- the row -----

  predicate CoolingDown(e: Export, user: nat, now: int) {
    e.user == user && now - COOLDOWN <= e.createdAt && (e.status.ExportPending? || e.status.Processing? || e.status.Ready?)
  }

  predicate Runnable(e: Export) {
    e.status.ExportPending? || e.status.Processing?
  }

  function Started(e: Export): Export {
    if Runnable(e) then e.(status := Processing) else e
  }

  /** What a provider run writes to its part; the write does not look at the part again. */
  function PartResult(e: Export, service: string, ok: bool): Export {
    if service in e.parts then e.(parts := e.parts[service := if ok then PartDone else PartFailed]) else e
  }

  /** `mark_part_ready`: DONE parts and unknown services are left alone. */
  predicate PartAwaited(e: Export, service: string) {
    service in e.parts && !e.parts[service].PartDone?
  }

  /** The export carrying a correlation id; the column is unique. */
  function FindExport(exports: seq<Export>, correlation: string): (r: Option<nat>)
    ensures r.Some? ==> r.value < |exports| && exports[r.value].correlation == correlation
    ensures r.None? ==> forall i :: 0 <= i < |exports| ==> exports[i].correlation != correlation
  {
    if exports == [] then None
    else
      var n := |exports| - 1;
      if exports[n].correlation == correlation then Some(n) else FindExport(exports[..n], correlation)
  }

  /** The test `_try_assemble` makes under its row lock. */
  predicate MayAssemble(e: Export, now: int, force: bool) {
    Runnable(e) && (e.AllPartsDone() || force || e.deadline <= now)
  }

  function Assembled(e: Export, report: RegistryReport, key: string, token: string, now: int, ttl: int): Export {
    e.(status := Ready, archive := Some(key), isPartial := IsPartial(e, report), missing := MissingServices(e, report.Names()),
       token := Some(token), consumedAt := None, expiresAt := Some(now + ttl))
  }

  /** The conditional UPDATE of `consume_download_token`. */
  predicate Spendable(e: Export, token: string) {
    token != "" && e.token == Some(token) && e.consumedAt.None?
  }

  function ExpiredRow(e: Export): Export {
    e.(status := Expired, archive := None, token := None)
  }

  /** Rows the purge takes: the window closed, or the download was consumed. */
  predicate WindowClosed(e: Export, now: int) {
    e.expiresAt.Some? && e.expiresAt.value <= now && !e.status.Expired?
  }

  predicate Orphan(e: Export) {
    e.consumedAt.Some? && e.archive.Some?
  }

  predicate Purgeable(e: Export, now: int) {
    WindowClosed(e, now) || Orphan(e)
  }

  function Chosen(rows: seq<Export>, doomed: Export -> bool): set<nat> {
    set i: nat | i < |rows| && doomed(rows[i])
  }

  lemma OneMoreChosen(rows: seq<Export>, doomed: Export -> bool, i: nat)
    requires i < |rows|
    ensures |Chosen(rows[..i + 1], doomed)| == |Chosen(rows[..i], doomed)| + if doomed(rows[i]) then 1 else 0
  {
    var all, earlier := Chosen(rows[..i + 1], doomed), Chosen(rows[..i], doomed);
    assert i in all <==> doomed(rows[i]);
    forall j: nat ensures j in all && j != i <==> j in earlier {
      if j < i {
        assert rows[..i + 1][j] == rows[..i][j];
      }
    }
    assert all - {i} == earlier;
  }

  /** `expire_export` on each selected row; the count of rows it took. */
  method ExpireWhere(rows: seq<Export>, doomed: Export -> bool) returns (after: seq<Export>, taken: nat)
    ensures |after| == |rows|
    ensures forall i :: 0 <= i < |rows| ==> after[i] == if doomed(rows[i]) then ExpiredRow(rows[i]) else rows[i]
    ensures taken == |Chosen(rows, doomed)|
  {
    after, taken := rows, 0;
    for i := 0 to |rows|
      invariant |after| == |rows|
      invariant forall j :: 0 <= j < i ==> after[j] == if doomed(rows[j]) then ExpiredRow(rows[j]) else rows[j]
      invariant forall j :: i <= j < |rows| ==> after[j] == rows[j]
      invariant taken == |Chosen(rows[..i], doomed)|
    {
      OneMoreChosen(rows, doomed, i);
      if doomed(after[i]) {
        after := after[i := ExpiredRow(after[i])];
        taken := taken + 1;
      }
    }
    assert rows[..|rows|] == rows;
  }

  function PurgeableRows(rows: seq<Export>, now: int): set<nat> {
    set i: nat | i < |rows| && Purgeable(rows[i], now)
  }

  /** First the closed windows, then the consumed downloads that still keep an archive. */
  method PurgeRows(rows: seq<Export>, now: int) returns (after: seq<Export>, purged: nat)
    ensures |after| == |rows|
    ensures forall i :: 0 <= i < |rows| ==> after[i] == if Purgeable(rows[i], now) then ExpiredRow(rows[i]) else rows[i]
    ensures forall i :: 0 <= i < |rows| ==> !Purgeable(after[i], now)
    ensures purged == |PurgeableRows(rows, now)|
  {
    var closed := e => WindowClosed(e, now);
    var consumed := e => Orphan(e);
    var middle, first := ExpireWhere(rows, closed);
    var second;
    after, second := ExpireWhere(middle, consumed);
    purged := first + second;
    forall i: nat | i < |rows|
      ensures after[i] == if Purgeable(rows[i], now) then ExpiredRow(rows[i]) else rows[i]
      ensures i in Chosen(middle, consumed) <==> Orphan(rows[i]) && !WindowClosed(rows[i], now)
    {
      TwoPasses(rows[i], middle[i], after[i], now);
    }
    TwoCounts(PurgeableRows(rows, now), Chosen(rows, closed), Chosen(middle, consumed));
  }

  lemma TwoPasses(row: Export, middle: Export, after: Export, now: int)
    requires middle == if WindowClosed(row, now) then ExpiredRow(row) else row
    requires after == if Orphan(middle) then ExpiredRow(middle) else middle
    ensures after == if Purgeable(row, now) then ExpiredRow(row) else row
    ensures Orphan(middle) <==> Orphan(row) && !WindowClosed(row, now)
  {
  }

  lemma TwoCounts(all: set<nat>, first: set<nat>, second: set<nat>)
    requires all == first + second && first !! second
    ensures |all| == |first| + |second|
  {
  }

  /** Neither assembling nor finished. */
  ghost predicate IsWaiting(e: Export) {
    e.status.ExportPending? || e.status.Processing?
  }

  ghost predicate EveryPartDone(e: Export) {
    forall s :: s in e.parts ==> e.parts[s].PartDone?
  }

  /** Its window has closed and nobody has said so yet, or it was downloaded and an archive is
      still named. */
  ghost predicate IsStale(e: Export, now: int) {
    || (!e.status.Expired? && e.expiresAt.Some? && e.expiresAt.value <= now)
    || (e.consumedAt.Some? && e.archive.Some?)
  }

  // ----- the desk -----

  datatype Assembly = NotDue | AssemblyDone(key: string, token: string) | AssemblyRaised

  class ExportDesk {
    var exports: seq<Export>
    var ready: seq<nat>
    var now: int

    constructor (moment: int)
      ensures exports == [] && ready == [] && now == moment
    {
      exports, ready, now := [], [], moment;
    }

    /** The row and its parts are written before the bus is told: a failing publish raises
        and leaves them. */
    method RequestExport(user: nat, names: seq<string>, listed: seq<string>, correlation: string, publishOk: bool)
      returns (raised: bool, cooldown: bool)
      requires Distinct(names)
      modifies this
      ensures now == old(now) && ready == old(ready)
      ensures cooldown <==>
                exists e :: e in old(exports) && e.user == user && now - 2592000 <= e.createdAt
                            && (e.status.ExportPending? || e.status.Processing? || e.status.Ready?)
      ensures cooldown ==> raised && exports == old(exports)
      ensures !cooldown ==>
                && raised == !publishOk && |exports| == |old(exports)| + 1 && exports[..|old(exports)|] == old(exports)
                && var e := exports[|exports| - 1];
                && e.user == user && e.status.ExportPending? && e.createdAt == now && e.deadline == now + 86400
                && PartPerService(e) && names <= e.expected && Elements(e.expected) == Elements(names) + Elements(listed)
                && (forall s :: s in e.parts ==> e.parts[s].PartPending?)
                && e.token.None? && e.consumedAt.None? && e.archive.None? && e.expiresAt.None?
                && e.correlation == correlation && !e.isPartial && e.missing == []
    {
      if exists e :: e in exports && CoolingDown(e, user, now) {
        return true, true;
      }
      var expected := CollectingServices(names, listed);
      var parts: map<string, PartStatus> := map[];
      for i := 0 to |expected|
        invariant parts.Keys == Elements(expected[..i])
        invariant forall s :: s in parts ==> parts[s].PartPending?
      {
        assert expected[..i + 1] == expected[..i] + [expected[i]];
        parts := parts[expected[i] := PartPending];
      }
      assert expected[..|expected|] == expected;
      exports := exports + [Export(user, ExportPending, correlation, expected, parts, now, now + EXPORT_WINDOW,
                                   None, None, None, None, false, [])];
      return !publishOk, false;
    }

    /** `run_export` up to its assembly: each registered provider fills its own part, unless it is DONE. */
    method RunProviders(id: nat, sections: seq<string>, fails: set<string>)
      requires id < |exports|
      modifies this
      ensures now == old(now) && ready == old(ready) && |exports| == |old(exports)|
      ensures forall i :: 0 <= i < |exports| && i != id ==> exports[i] == old(exports)[i]
      ensures !IsWaiting(old(exports)[id]) ==> exports[id] == old(exports)[id]
      ensures IsWaiting(old(exports)[id]) ==>
                && exports[id] == old(exports)[id].(status := Processing, parts := exports[id].parts)
                && exports[id].parts.Keys == old(exports)[id].parts.Keys
                && forall s :: s in exports[id].parts ==>
                     exports[id].parts[s] ==
                       if s in sections && !old(exports)[id].parts[s].PartDone? then (if s in fails then PartFailed else PartDone)
                       else old(exports)[id].parts[s]
    {
      if !Runnable(exports[id]) {
        return;
      }
      var before := exports[id].parts;
      var parts := before;
      for i := 0 to |sections|
        invariant parts.Keys == before.Keys
        invariant forall s :: s in parts ==>
                    parts[s] == if s in sections[..i] && !before[s].PartDone? then (if s in fails then PartFailed else PartDone)
                                else before[s]
      {
        assert sections[..i + 1] == sections[..i] + [sections[i]];
        var section := sections[i];
        if section in parts && !parts[section].PartDone? {
          parts := parts[section := if section in fails then PartFailed else PartDone];
        }
      }
      assert sections[..|sections|] == sections;
      exports := exports[id := Started(exports[id]).(parts := parts)];
    }

    /** `_try_assemble`: begins under the lock or not at all; a failure returns the row to
        PROCESSING and raises. */
    method TryAssemble(id: nat, report: RegistryReport, force: bool, key: string, token: string, ttl: int, failing: bool)
      returns (outcome: Assembly)
      requires id < |exports|
      modifies this
      ensures now == old(now) && |exports| == |old(exports)|
      ensures forall i :: 0 <= i < |exports| && i != id ==> exports[i] == old(exports)[i]
      ensures outcome.NotDue? <==>
                !(IsWaiting(old(exports)[id]) && (force || old(exports)[id].deadline <= now || EveryPartDone(old(exports)[id])))
      ensures outcome.NotDue? ==> exports == old(exports) && ready == old(ready)
      ensures outcome.AssemblyRaised? ==> exports[id] == old(exports)[id].(status := Processing) && ready == old(ready)
      ensures outcome.AssemblyDone? ==>
                && ready == old(ready) + [id]
                && exports[id] == old(exports)[id].(status := Ready, archive := Some(key), token := Some(token), consumedAt := None,
                                                   expiresAt := Some(now + ttl), isPartial := exports[id].isPartial,
                                                   missing := exports[id].missing)
                && exports[id].isPartial == IsPartial(old(exports)[id], report)
                && exports[id].missing == MissingServices(old(exports)[id], report.Names())
      ensures !outcome.NotDue? ==> (outcome.AssemblyRaised? <==> failing)
    {
      var e := exports[id];
      if !MayAssemble(e, now, force) {
        return NotDue;
      }
      exports := exports[id := e.(status := Assembling)];
      if failing {
        exports := exports[id := e.(status := Processing)];
        return AssemblyRaised;
      }
      exports := exports[id := Assembled(e, report, key, token, now, ttl)];
      ready := ready + [id];
      return AssemblyDone(key, token);
    }

    /** `mark_part_ready`: an unknown correlation id, a refused path, an unknown service and a
        DONE part change nothing; otherwise the part is DONE and assembly is tried. */
    method MarkPartReady(correlation: string, service: string, acceptable: bool) returns (assemble: Option<nat>)
      modifies this
      ensures now == old(now) && ready == old(ready) && |exports| == |old(exports)|
      ensures var found := FindExport(old(exports), correlation);
              assemble.Some? <==>
                found.Some? && acceptable && service in old(exports)[found.value].parts && !old(exports)[found.value].parts[service].PartDone?
      ensures assemble.None? ==> exports == old(exports)
      ensures assemble.Some? ==>
                && assemble == FindExport(old(exports), correlation)
                && var e := old(exports)[assemble.value];
                exports == old(exports)[assemble.value := e.(parts := e.parts[service := PartDone])]
    {
      var found := FindExport(exports, correlation);
      if found.None? || !acceptable || !PartAwaited(exports[found.value], service) {
        return None;
      }
      var e := exports[found.value];
      exports := exports[found.value := e.(parts := e.parts[service := PartDone])];
      return found;
    }

    method ConsumeDownloadToken(id: nat, token: string) returns (spent: bool)
      requires id < |exports|
      modifies this
      ensures now == old(now) && ready == old(ready)
      ensures spent <==> token != "" && old(exports)[id].token == Some(token) && old(exports)[id].consumedAt.None?
      ensures exports == if spent then old(exports)[id := old(exports)[id].(consumedAt := Some(now))] else old(exports)
      ensures id < |exports| && !(token != "" && exports[id].token == Some(token) && exports[id].consumedAt.None?)
    {
      spent := Spendable(exports[id], token);
      if spent {
        exports := exports[id := exports[id].(consumedAt := Some(now))];
      }
    }

    /** `purge_expired_exports`: afterwards no window is open past its end and no consumed
        download keeps an archive; every other row is as it was. */
    method PurgeExpiredExports() returns (purged: nat)
      modifies this
      ensures now == old(now) && ready == old(ready) && |exports| == |old(exports)|
      ensures forall i :: 0 <= i < |exports| ==>
                exports[i] == if IsStale(old(exports)[i], now) then old(exports)[i].(status := Expired, archive := None, token := None)
                              else old(exports)[i]
      ensures forall i :: 0 <= i < |exports| ==> !IsStale(exports[i], now)
      ensures purged == |set i: nat | i < |old(exports)| && IsStale(old(exports)[i], now)|
    {
      ghost var before := exports;
      exports, purged := PurgeRows(exports, now);
      assert PurgeableRows(before, now) == set i: nat | i < |before| && IsStale(before[i], now);
    }
  }
}
