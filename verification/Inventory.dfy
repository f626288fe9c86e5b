/** The data-owner inventory (owners.py): the declared holders of personal data,
    measured against the providers that are actually registered.

    Names are taken as already stripped of surrounding blanks. */
module Inventory {
  import opened Common

  datatype Kind = Local | Remote

  /** One resolved owner; `timeout` is in seconds. */
  datatype DataOwner = DataOwner(name: string, kind: Kind, timeout: int, subjects: seq<string>) {
    predicate Claims(subject: string) {
      subject in subjects
    }
  }

  datatype Problem = Unconfigured | Unreachable(missing: seq<string>) | Stale(undeclared: set<string>)

  datatype RegistryReport = RegistryReport(
    version: string,
    owners: seq<DataOwner>,
    missing: seq<string>,
    undeclared: set<string>,
    unconfigured: bool)
  {
    /** The reasons this registry cannot certify an erasure. */
    function Problems(): seq<Problem> {
      (if unconfigured then [Unconfigured] else [])
      + (if missing != [] then [Unreachable(missing)] else [])
      + (if undeclared != {} then [Stale(undeclared)] else [])
    }

    function Names(): seq<string> {
      NamesOf(owners)
    }

    function OwnersFor(subject: string): seq<DataOwner> {
      Claiming(owners, subject)
    }

    /** The names of the owners claiming a subject type. */
    function ClaimNames(subject: string): set<string> {
      set o | o in owners && o.Claims(subject) :: o.name
    }
  }

  function NamesOf(owners: seq<DataOwner>): (r: seq<string>)
    ensures |r| == |owners| && forall i :: 0 <= i < |r| ==> r[i] == owners[i].name
  {
    seq(|owners|, i requires 0 <= i < |owners| => owners[i].name)
  }

  function Claiming(owners: seq<DataOwner>, subject: string): (r: seq<DataOwner>)
    ensures forall o :: o in r <==> o in owners && o.Claims(subject)
  {
    if owners == [] then []
    else
      var n := |owners| - 1;
      var rest := Claiming(owners[..n], subject);
      assert owners == owners[..n] + [owners[n]];
      if owners[n].Claims(subject) then rest + [owners[n]] else rest
  }

  // ----- the raw setting -----

  /** What a declaration wrote under `subject_types`. */
  datatype RawSubjects = NoSubjects | OneSubject(name: string) | Subjects(names: seq<string>)

  /** The part of a declaration that is not the owner's name. A kind outside
      {local, remote} and a zero timeout both mean "not said". */
  datatype Spec = Spec(kind: Option<Kind>, timeoutHours: nat, subjects: RawSubjects)

  datatype Declaration = Declaration(name: string, spec: Spec)

  /** STAPEL_GDPR["DATA_OWNERS"]: a map in insertion order, or a list. */
  datatype MapValue = SpecValue(spec: Spec) | SubjectsValue(subjects: RawSubjects)
  datatype ListEntry = Bare(name: string) | Full(declaration: Declaration)
  datatype Setting = AsMap(pairs: seq<(string, MapValue)>) | AsList(entries: seq<ListEntry>)

  const BARE_SPEC := Spec(None, 0, NoSubjects)
  const SUBJECT_ACCOUNT := "account"

  function FromMapValue(name: string, value: MapValue): Declaration {
    match value
    case SpecValue(spec) => Declaration(name, spec)
    case SubjectsValue(subjects) => Declaration(name, Spec(None, 0, subjects))
  }

  function FromListEntry(entry: ListEntry): Declaration {
    match entry
    case Bare(name) => Declaration(name, BARE_SPEC)
    case Full(declaration) => declaration
  }

  /** Every entry of the setting in declaration order, then the legacy remote services. */
  function AllDeclarations(setting: Setting, legacy: seq<string>): seq<Declaration> {
    (match setting
     case AsMap(pairs) => seq(|pairs|, i requires 0 <= i < |pairs| => FromMapValue(pairs[i].0, pairs[i].1))
     case AsList(entries) => seq(|entries|, i requires 0 <= i < |entries| => FromListEntry(entries[i])))
    + seq(|legacy|, i requires 0 <= i < |legacy| => Declaration(legacy[i], Spec(Some(Remote), 0, NoSubjects)))
  }

  /** Nothing of `kept` is nameless or repeats a name, and what it holds is exactly the
      first entry of each name: the reading `_declarations` promises. The legacy loop
      does not test for a blank name, so blanks count only among the first `configured`. */
  ghost predicate FirstOfEachName(kept: seq<Declaration>, all: seq<Declaration>, configured: nat) {
    && (exists at: seq<nat> :: InOrder(kept, all, configured, at))
    && NamesDiffer(kept)
    && (forall d :: d in kept <==> exists k :: IsFirst(all, configured, k) && all[k] == d)
  }

  /** `at` lists, in increasing order, where in the setting the kept entries stand. */
  ghost predicate InOrder(kept: seq<Declaration>, all: seq<Declaration>, configured: nat, at: seq<nat>) {
    && |at| == |kept|
    && (forall i :: 0 <= i < |at| ==> IsFirst(all, configured, at[i]) && all[at[i]] == kept[i])
    && (forall i, j :: 0 <= i < j < |at| ==> at[i] < at[j])
  }

  ghost predicate Eligible(all: seq<Declaration>, configured: nat, k: int) {
    0 <= k < |all| && (k < configured ==> all[k].name != "")
  }

  ghost predicate IsFirst(all: seq<Declaration>, configured: nat, k: int) {
    Eligible(all, configured, k) && forall j :: 0 <= j < k && Eligible(all, configured, j) ==> all[j].name != all[k].name
  }

  /** A name among the eligible of the first `k` entries. */
  ghost predicate Named(all: seq<Declaration>, configured: nat, k: nat, name: string) {
    exists j :: 0 <= j < k && Eligible(all, configured, j) && all[j].name == name
  }

  /** The first entry of its name among the first `k`. */
  ghost predicate Kept(all: seq<Declaration>, configured: nat, k: nat, d: Declaration) {
    exists j :: 0 <= j < k && IsFirst(all, configured, j) && all[j] == d
  }

  lemma NextEntry(all: seq<Declaration>, configured: nat, k: nat)
    requires k < |all|
    ensures IsFirst(all, configured, k) <==> Eligible(all, configured, k) && !Named(all, configured, k, all[k].name)
    ensures forall n :: Named(all, configured, k + 1, n) <==>
              Named(all, configured, k, n) || (Eligible(all, configured, k) && n == all[k].name)
    ensures forall d :: Kept(all, configured, k + 1, d) <==>
              Kept(all, configured, k, d) || (IsFirst(all, configured, k) && d == all[k])
  {
    forall n | Named(all, configured, k, n) || (Eligible(all, configured, k) && n == all[k].name)
      ensures Named(all, configured, k + 1, n)
    {
      var j :| 0 <= j < k + 1 && Eligible(all, configured, j) && all[j].name == n;
    }
    forall d | Kept(all, configured, k, d) || (IsFirst(all, configured, k) && d == all[k])
      ensures Kept(all, configured, k + 1, d)
    {
      var j :| 0 <= j < k + 1 && IsFirst(all, configured, j) && all[j] == d;
    }
  }

  ghost predicate Below(at: seq<nat>, k: nat) {
    forall i :: 0 <= i < |at| ==> at[i] < k
  }

  lemma OneMoreInOrder(kept: seq<Declaration>, all: seq<Declaration>, configured: nat, at: seq<nat>, k: nat)
    requires InOrder(kept, all, configured, at) && Below(at, k) && IsFirst(all, configured, k)
    ensures InOrder(kept + [all[k]], all, configured, at + [k]) && Below(at + [k], k + 1)
  {
  }

  method Declarations(setting: Setting, legacy: seq<string>) returns (declared: seq<Declaration>)
    ensures FirstOfEachName(declared, AllDeclarations(setting, legacy),
                            |AllDeclarations(setting, legacy)| - |legacy|)
  {
    var all := AllDeclarations(setting, legacy);
    var configured := |all| - |legacy|;
    declared := [];
    var seen: set<string> := {};
    ghost var at: seq<nat> := [];
    for k := 0 to |all|
      invariant InOrder(declared, all, configured, at) && Below(at, k)
      invariant NamesDiffer(declared)
      invariant forall i :: 0 <= i < |declared| ==> declared[i].name in seen
      invariant forall n :: n in seen <==> Named(all, configured, k, n)
      invariant forall d :: d in declared <==> Kept(all, configured, k, d)
    {
      NextEntry(all, configured, k);
      if !((k < configured && all[k].name == "") || all[k].name in seen) {
        seen := seen + {all[k].name};
        OneMoreInOrder(declared, all, configured, at, k);
        declared := declared + [all[k]];
        at := at + [k];
      }
    }
    assert forall d :: Kept(all, configured, |all|, d) <==> exists k :: IsFirst(all, configured, k) && all[k] == d;
  }

  /** `_normalize_subjects`: the non-blank names in the order of their first occurrence, or
      just `account` when there is none. */
  function NormalizeSubjects(raw: RawSubjects): (r: seq<string>)
    ensures r != []
    ensures if IsKept([], RawNames(raw)) then r == [SUBJECT_ACCOUNT] else IsKept(r, RawNames(raw))
  {
    var kept := KeepFirst(RawNames(raw));
    assert kept != [] ==> kept[0] in kept && kept[0] in RawNames(raw);
    if kept == [] then [SUBJECT_ACCOUNT] else kept
  }

  /** The non-blank names, once each, in the order of their first occurrence. */
  ghost predicate IsKept(kept: seq<string>, names: seq<string>) {
    && Distinct(kept) && (forall s :: s in kept <==> s in names && s != "") && InFirstOrder(kept, names)
  }

  function RawNames(raw: RawSubjects): seq<string> {
    match raw
    case NoSubjects => []
    case OneSubject(name) => [name]
    case Subjects(names) => names
  }

  /** Where a name first stands. */
  ghost predicate FirstAt(names: seq<string>, name: string, i: nat) {
    i < |names| && names[i] == name && name !in names[..i]
  }

  /** `kept` runs through `names` from first occurrence to first occurrence. */
  ghost predicate InFirstOrder(kept: seq<string>, names: seq<string>) {
    forall a, b :: 0 <= a < b < |kept| ==>
      forall i, j :: FirstAt(names, kept[a], i) && FirstAt(names, kept[b], j) ==> i < j
  }

  function KeepFirst(names: seq<string>): (r: seq<string>)
    ensures IsKept(r, names)
  {
    if names == [] then []
    else
      var n := |names| - 1;
      assert names == names[..n] + [names[n]];
      var rest := KeepFirst(names[..n]);
      OneMoreName(rest, names);
      if names[n] == "" || names[n] in rest then rest else rest + [names[n]]
  }

  lemma OneMoreName(rest: seq<string>, names: seq<string>)
    requires names != [] && InFirstOrder(rest, names[..|names| - 1])
    requires forall s :: s in rest ==> s in names[..|names| - 1]
    ensures InFirstOrder(rest, names)
    ensures names[|names| - 1] !in names[..|names| - 1] ==> InFirstOrder(rest + [names[|names| - 1]], names)
  {
    var n := |names| - 1;
    forall s, i: nat | s in rest && FirstAt(names, s, i) ensures i < n && FirstAt(names[..n], s, i) {
      assert i < n;
      assert names[..n][..i] == names[..i];
    }
  }

  /** The owner a declaration resolves to when `registered` are the in-process providers. */
  function Resolve(d: Declaration, registered: set<string>, defaultTimeout: int): DataOwner {
    DataOwner(
      d.name,
      match d.spec.kind
      case Some(kind) => kind
      case None => if d.name in registered then Local else Remote,
      if d.spec.timeoutHours != 0 then d.spec.timeoutHours * 3600 else defaultTimeout,
      NormalizeSubjects(d.spec.subjects))
  }

  /** An owner declared local whose provider is not registered. */
  ghost predicate Unregistered(owners: seq<DataOwner>, registered: set<string>, name: string) {
    name !in registered && exists o :: o in owners && o.name == name && o.kind == Local
  }

  lemma OneMoreOwner(owners: seq<DataOwner>, owner: DataOwner, registered: set<string>)
    ensures forall n :: Unregistered(owners + [owner], registered, n) <==>
              Unregistered(owners, registered, n) || (n == owner.name && owner.kind == Local && n !in registered)
  {
    assert forall o :: o in owners + [owner] <==> o in owners || o == owner;
  }

  /** What an owner takes from its declaration: the name; the kind it says, or local exactly
      when a provider of that name is registered; its own hours, or the default; the subjects
      it lists, or just the account. */
  ghost predicate IsOwnerOf(o: DataOwner, d: Declaration, registered: set<string>, defaultTimeout: int) {
    && o.name == d.name
    && (d.spec.kind.Some? ==> o.kind == d.spec.kind.value)
    && (d.spec.kind.None? ==> (o.kind.Local? <==> d.name in registered))
    && o.timeout == (if d.spec.timeoutHours == 0 then defaultTimeout else d.spec.timeoutHours * 3600)
    && (if IsKept([], RawNames(d.spec.subjects)) then o.subjects == ["account"] else IsKept(o.subjects, RawNames(d.spec.subjects)))
  }

  lemma ResolveMeans(d: Declaration, registered: set<string>, defaultTimeout: int)
    ensures IsOwnerOf(Resolve(d, registered, defaultTimeout), d, registered, defaultTimeout)
  {
  }

  /** An owner whose kind was not said is never found missing. */
  lemma InferredIsReachable(o: DataOwner, d: Declaration, registered: set<string>, defaultTimeout: int)
    requires IsOwnerOf(o, d, registered, defaultTimeout) && d.spec.kind.None?
    ensures !(o.kind.Local? && o.name !in registered)
  {
  }

  /** The entries of the setting, read one by one. */
  lemma EntriesMean(setting: Setting, legacy: seq<string>, i: nat)
    requires i < |AllDeclarations(setting, legacy)|
    ensures |AllDeclarations(setting, legacy)| == |legacy| + match setting case AsMap(pairs) => |pairs| case AsList(entries) => |entries|
    ensures var d := AllDeclarations(setting, legacy)[i];
            var configured := |AllDeclarations(setting, legacy)| - |legacy|;
            && (i >= configured ==>
                  d.name == legacy[i - configured] && d.spec.kind == Some(Remote) && d.spec.timeoutHours == 0 && RawNames(d.spec.subjects) == [])
            && (i < configured && setting.AsMap? ==>
                  && d.name == setting.pairs[i].0
                  && (setting.pairs[i].1.SpecValue? ==> d.spec == setting.pairs[i].1.spec)
                  && (setting.pairs[i].1.SubjectsValue? ==>
                        d.spec.kind.None? && d.spec.timeoutHours == 0 && d.spec.subjects == setting.pairs[i].1.subjects))
            && (i < configured && setting.AsList? ==>
                  && (setting.entries[i].Full? ==> d == setting.entries[i].declaration)
                  && (setting.entries[i].Bare? ==>
                        d.name == setting.entries[i].name && d.spec.kind.None? && d.spec.timeoutHours == 0 && RawNames(d.spec.subjects) == []))
  {
  }

  /** The owners are the declarations, resolved one by one and in order. */
  ghost predicate Resolved(owners: seq<DataOwner>, decls: seq<Declaration>, registered: set<string>, defaultTimeout: int) {
    |owners| == |decls| && forall i :: 0 <= i < |owners| ==> owners[i] == Resolve(decls[i], registered, defaultTimeout)
  }

  ghost predicate NamesDiffer(decls: seq<Declaration>) {
    forall i, j :: 0 <= i < j < |decls| ==> decls[i].name != decls[j].name
  }

  lemma OneMoreResolved(owners: seq<DataOwner>, decls: seq<Declaration>, i: nat, registered: set<string>, defaultTimeout: int)
    requires i < |decls| && Resolved(owners, decls[..i], registered, defaultTimeout)
    ensures Resolved(owners + [Resolve(decls[i], registered, defaultTimeout)], decls[..i + 1], registered, defaultTimeout)
  {
    var owner := Resolve(decls[i], registered, defaultTimeout);
    forall j | 0 <= j < i + 1 ensures (owners + [owner])[j] == Resolve(decls[..i + 1][j], registered, defaultTimeout) {
      if j < i {
        assert decls[..i + 1][j] == decls[..i][j];
      }
    }
  }

  /** The next owner's name is new, so a name is found missing at most once. */
  lemma NewName(owners: seq<DataOwner>, decls: seq<Declaration>, i: nat, registered: set<string>, defaultTimeout: int)
    requires i < |decls| && NamesDiffer(decls) && Resolved(owners, decls[..i], registered, defaultTimeout)
    ensures !Unregistered(owners, registered, decls[i].name)
  {
    forall j | 0 <= j < i ensures owners[j].name != decls[i].name {
      assert owners[j] == Resolve(decls[..i][j], registered, defaultTimeout);
      assert decls[..i][j] == decls[j];
    }
  }

  lemma SameNames(owners: seq<DataOwner>, decls: seq<Declaration>, registered: set<string>, defaultTimeout: int)
    requires NamesDiffer(decls) && Resolved(owners, decls, registered, defaultTimeout)
    ensures Distinct(NamesOf(owners))
  {
    forall i, j | 0 <= i < j < |owners| ensures NamesOf(owners)[i] != NamesOf(owners)[j] {
      assert owners[i].name == decls[i].name && owners[j].name == decls[j].name;
    }
  }

  /** `data_owner_report`: the declaration measured against the registered providers. */
  method DataOwnerReport(setting: Setting, legacy: seq<string>, registered: set<string>,
                         defaultTimeout: int, version: string)
    returns (report: RegistryReport, ghost declared: seq<Declaration>)
    ensures FirstOfEachName(declared, AllDeclarations(setting, legacy),
                            |AllDeclarations(setting, legacy)| - |legacy|)
    ensures report.version == version && |report.owners| == |declared|
    ensures forall i :: 0 <= i < |declared| ==> IsOwnerOf(report.owners[i], declared[i], registered, defaultTimeout)
    ensures Distinct(report.Names())
    ensures Distinct(report.missing)
    ensures forall n :: n in report.missing <==> Unregistered(report.owners, registered, n)
    ensures report.undeclared == registered - Elements(report.Names())
    ensures report.unconfigured <==> report.owners == []
  {
    var decls := Declarations(setting, legacy);
    declared := decls;
    var owners: seq<DataOwner> := [];
    var missing: seq<string> := [];
    for i := 0 to |decls|
      invariant Resolved(owners, decls[..i], registered, defaultTimeout)
      invariant Distinct(missing)
      invariant forall n :: n in missing <==> Unregistered(owners, registered, n)
    {
      var owner := Resolve(decls[i], registered, defaultTimeout);
      OneMoreOwner(owners, owner, registered);
      OneMoreResolved(owners, decls, i, registered, defaultTimeout);
      NewName(owners, decls, i, registered, defaultTimeout);
      owners := owners + [owner];
      if owner.kind == Local && owner.name !in registered {
        missing := missing + [owner.name];
      }
    }
    assert decls[..|decls|] == decls;
    report := RegistryReport(version, owners, missing, registered - Elements(NamesOf(owners)), owners == []);
    SameNames(owners, decls, registered, defaultTimeout);
    forall i | 0 <= i < |decls| ensures IsOwnerOf(owners[i], decls[i], registered, defaultTimeout) {
      ResolveMeans(decls[i], registered, defaultTimeout);
    }
  }

  /** An inventory has no problem exactly when somebody is declared, every declared
      local owner is registered and every registered provider is declared. */
  lemma SoundInventory(report: RegistryReport, registered: set<string>)
    requires forall n :: n in report.missing <==> Unregistered(report.owners, registered, n)
    requires report.undeclared == registered - Elements(report.Names())
    requires report.unconfigured <==> report.owners == []
    ensures report.Problems() == [] <==>
              && report.owners != []
              && (forall o :: o in report.owners && o.kind == Local ==> o.name in registered)
              && registered <= Elements(report.Names())
  {
    var names := Elements(report.Names());
    assert registered - names == {} <==> registered <= names by {
      assert forall n :: n in registered - names <==> n in registered && n !in names;
      assert registered - names == {} ==> forall n :: n in registered ==> n !in registered - names;
    }
    if report.missing == [] {
      forall o | o in report.owners && o.kind == Local ensures o.name in registered {
        assert o.name !in report.missing;
      }
    } else {
      assert report.missing[0] in report.missing;
    }
  }

  /** Each problem names what it is about. */
  lemma ProblemsSay(report: RegistryReport)
    ensures Unconfigured in report.Problems() <==> report.unconfigured
    ensures forall m :: Unreachable(m) in report.Problems() <==> m == report.missing && m != []
    ensures forall u :: Stale(u) in report.Problems() <==> u == report.undeclared && u != {}
  {
    var problems := report.Problems();
    if report.unconfigured {
      assert problems[0] == Unconfigured;
    }
    if report.missing != [] {
      assert Unreachable(report.missing) in problems;
    }
    if report.undeclared != {} {
      assert problems[|problems| - 1] == Stale(report.undeclared);
    }
  }

  /** `owners_for` and the set of claiming names agree. */
  lemma ClaimNamesAreOwnersFor(report: RegistryReport, subject: string)
    ensures report.ClaimNames(subject) == Elements(NamesOf(report.OwnersFor(subject)))
    ensures report.OwnersFor(subject) == [] <==> report.ClaimNames(subject) == {}
  {
    var claiming := report.OwnersFor(subject);
    forall n | n in report.ClaimNames(subject) ensures n in NamesOf(claiming) {
      var o :| o in report.owners && o.Claims(subject) && o.name == n;
      assert o in claiming;
      var i :| 0 <= i < |claiming| && claiming[i] == o;
      assert NamesOf(claiming)[i] == n;
    }
    if claiming != [] {
      assert claiming[0] in claiming;
      assert claiming[0].name in report.ClaimNames(subject);
    }
  }
}
