/** The vulnerability report generator of `rustsec/src/report.rs`: report
    settings become a database query, the matches minus the ignored advisories
    become the vulnerability summary, and a second, informational query is
    classified into warnings grouped by kind. */
module Report {

  import opened Wrappers
  import opened Collaborators

  // ---------------------------------------------------------------------------
  // Settings and the query they stand for
  // ---------------------------------------------------------------------------

  /** Options used when generating a report. */
  datatype Settings = Settings(
    targetArch: Option<Arch>,
    targetOs: Option<OS>,
    severity: Option<Severity>,
    ignore: seq<Id>,
    informationalWarnings: seq<Informational>)

  /** The query the settings stand for: crate scope, narrowed by each platform
      or severity setting that is present. Ignored IDs and requested categories
      are not part of it. */
  function QueryOf(settings: Settings): (query: Query)
    ensures query.targetArch == settings.targetArch
    ensures query.targetOs == settings.targetOs
    ensures query.severity == settings.severity
    ensures !query.informational
  {
    var q0 := CrateScope();
    var q1 := if settings.targetArch.Some? then q0.TargetArch(settings.targetArch.value) else q0;
    var q2 := if settings.targetOs.Some? then q1.TargetOs(settings.targetOs.value) else q1;
    if settings.severity.Some? then q2.WithSeverity(settings.severity.value) else q2
  }

  /** `Settings::query`: starts from the crate scope and adds each restriction
      whose setting is present. */
  method BuildQuery(settings: Settings) returns (query: Query)
    ensures query == QueryOf(settings)
  {
    query := CrateScope();
    if settings.targetArch.Some? {
      query := query.TargetArch(settings.targetArch.value);
    }
    if settings.targetOs.Some? {
      query := query.TargetOs(settings.targetOs.value);
    }
    if settings.severity.Some? {
      query := query.WithSeverity(settings.severity.value);
    }
  }

  /** Two settings that agree on platform and severity give the same query,
      whatever they ignore or ask warnings for. */
  lemma QueryIgnoresFilters(a: Settings, b: Settings)
    requires a.targetArch == b.targetArch && a.targetOs == b.targetOs && a.severity == b.severity
    ensures QueryOf(a) == QueryOf(b)
  {
  }

  /** The query of the informational pass: the settings' query with
      informational advisories switched on. */
  function InformationalQueryOf(settings: Settings): (query: Query)
    ensures query.informational
    ensures query == QueryOf(settings).(informational := true)
  {
    QueryOf(settings).WithInformational(true)
  }

  // ---------------------------------------------------------------------------
  // Provenance
  // ---------------------------------------------------------------------------

  /** Information about the advisory database. */
  datatype DatabaseInfo = DatabaseInfo(advisoryCount: nat, lastCommit: Option<string>, lastUpdated: Option<int>)

  /** `DatabaseInfo::new`: both commit fields come from the one latest commit,
      so they are present together or absent together. */
  function NewDatabaseInfo(db: Database): (info: DatabaseInfo)
    ensures info.advisoryCount == |db.advisories|
    ensures info.lastCommit.Some? <==> db.latestCommit.Some?
    ensures info.lastUpdated.Some? <==> db.latestCommit.Some?
    ensures db.latestCommit.Some? ==>
              info.lastCommit.value == db.latestCommit.value.commitId &&
              info.lastUpdated.value == db.latestCommit.value.timestamp
  {
    DatabaseInfo(
      |db.advisories|,
      if db.latestCommit.Some? then Some(db.latestCommit.value.commitId) else None,
      if db.latestCommit.Some? then Some(db.latestCommit.value.timestamp) else None)
  }

  /** Information about `Cargo.lock`. */
  datatype LockfileInfo = LockfileInfo(dependencyCount: nat)

  /** `LockfileInfo::new`: the dependency count is the number of packages. */
  function NewLockfileInfo(lockfile: Lockfile): (info: LockfileInfo)
    ensures info.dependencyCount == |lockfile.packages|
  {
    LockfileInfo(|lockfile.packages|)
  }

  // ---------------------------------------------------------------------------
  // Vulnerabilities
  // ---------------------------------------------------------------------------

  /** Information about detected vulnerabilities. */
  datatype VulnerabilityInfo = VulnerabilityInfo(found: bool, count: nat, list: seq<Vulnerability>)
  {
    /** The summary agrees with its list. */
    predicate Valid()
    {
      count == |list| && found == (count > 0)
    }
  }

  /** `VulnerabilityInfo::new`: a consistent summary of the list, which is kept
      as given. */
  function NewVulnerabilityInfo(list: seq<Vulnerability>): (info: VulnerabilityInfo)
    ensures info.Valid()
    ensures info.list == list
    ensures info.found <==> list != []
  {
    VulnerabilityInfo(list != [], |list|, list)
  }

  /** A consistent summary is determined by its list: `NewVulnerabilityInfo`
      is the only way to build one. */
  lemma ValidInfoIsNew(info: VulnerabilityInfo)
    requires info.Valid()
    ensures info == NewVulnerabilityInfo(info.list)
  {
  }

  /** The matches whose advisory ID is not ignored, in query order (the
      `filter(...).collect()` of `Report::generate`). */
  function RemoveIgnored(matches: seq<Vulnerability>, ignore: seq<Id>): (kept: seq<Vulnerability>)
    ensures |kept| <= |matches|
    ensures forall v :: multiset(kept)[v] == if v.advisory.id in ignore then 0 else multiset(matches)[v]
    ensures forall v :: v in kept <==> v in matches && v.advisory.id !in ignore
  {
    if matches == [] then []
    else
      var rest := RemoveIgnored(matches[1..], ignore);
      assert matches == [matches[0]] + matches[1..];
      if matches[0].advisory.id in ignore then rest else [matches[0]] + rest
  }

  /** Filtering works match by match: filtering a concatenation concatenates
      the filtered parts, so the kept matches stay in query order. */
  lemma {:induction false} RemoveIgnoredAppend(a: seq<Vulnerability>, b: seq<Vulnerability>, ignore: seq<Id>)
    ensures RemoveIgnored(a + b, ignore) == RemoveIgnored(a, ignore) + RemoveIgnored(b, ignore)
    decreases |a|
  {
    if a == [] {
      assert a + b == b;
    } else {
      assert (a + b)[1..] == a[1..] + b;
      RemoveIgnoredAppend(a[1..], b, ignore);
    }
  }

  /** One match is kept exactly when its ID is not ignored. */
  lemma RemoveIgnoredSingle(v: Vulnerability, ignore: seq<Id>)
    ensures RemoveIgnored([v], ignore) == if v.advisory.id in ignore then [] else [v]
  {
    assert [v][1..] == [];
  }

  // ---------------------------------------------------------------------------
  // Warnings: classifying one match
  // ---------------------------------------------------------------------------

  /** Information about warnings: warnings grouped by kind. */
  type WarningInfo = map<WarningKind, seq<Warning>>

  /** The `iter().any(|info| Some(info) == advisory.informational.as_ref())` test:
      the advisory has a category and it is one of the requested ones. */
  function Requested(infos: seq<Informational>, category: Option<Informational>): (found: bool)
    ensures found <==> category.Some? && category.value in infos
  {
    if infos == [] then false
    else Some(infos[0]) == category || Requested(infos[1..], category)
  }

  /** The three conditions for a match to become a warning: not ignored, its
      category requested, and the category mapped to a warning kind. */
  predicate Passes(v: Vulnerability, settings: Settings, kindOf: Informational -> Option<WarningKind>)
  {
    && v.advisory.id !in settings.ignore
    && v.advisory.informational.Some?
    && v.advisory.informational.value in settings.informationalWarnings
    && kindOf(v.advisory.informational.value).Some?
  }

  /** The warning a passing match becomes. */
  function WarningFor(v: Vulnerability, kindOf: Informational -> Option<WarningKind>): Warning
    requires v.advisory.informational.Some? && kindOf(v.advisory.informational.value).Some?
  {
    Warning(kindOf(v.advisory.informational.value).value, v.package, Some(v.advisory), Some(v.versions))
  }

  /** What `find_warnings` does with one match: at most one warning, present
      exactly when the three conditions hold. Reading the category after the
      `any` test cannot fail (the `expect` of `find_warnings`). */
  function Classify(v: Vulnerability, settings: Settings, kindOf: Informational -> Option<WarningKind>): (w: Option<Warning>)
    ensures w.Some? <==> Passes(v, settings, kindOf)
    ensures w.Some? ==> w.value == WarningFor(v, kindOf) && w.value.kind == kindOf(v.advisory.informational.value).value
  {
    if v.advisory.id in settings.ignore then None
    else if Requested(settings.informationalWarnings, v.advisory.informational) then
      match kindOf(v.advisory.informational.value)
      case Some(kind) => Some(Warning(kind, v.package, Some(v.advisory), Some(v.versions)))
      case None => None
    else None
  }

  /** The warnings the matches yield, in query order. */
  function Collect(matches: seq<Vulnerability>, settings: Settings, kindOf: Informational -> Option<WarningKind>): (ws: seq<Warning>)
    ensures |ws| <= |matches|
  {
    if matches == [] then []
    else
      var last := matches[|matches| - 1];
      Collect(matches[..|matches| - 1], settings, kindOf)
        + (match Classify(last, settings, kindOf) case Some(w) => [w] case None => [])
  }

  /** Classification works match by match: the warnings of a concatenation
      are the warnings of its first part followed by those of its second, so
      warnings keep query order. */
  lemma {:induction false} CollectAppend(a: seq<Vulnerability>, b: seq<Vulnerability>, settings: Settings,
                                         kindOf: Informational -> Option<WarningKind>)
    ensures Collect(a + b, settings, kindOf) == Collect(a, settings, kindOf) + Collect(b, settings, kindOf)
    decreases |b|
  {
    if b == [] {
      assert a + b == a;
    } else {
      var init := b[..|b| - 1];
      assert (a + b)[..|a + b| - 1] == a + init;
      assert (a + b)[|a + b| - 1] == b[|b| - 1];
      CollectAppend(a, init, settings, kindOf);
    }
  }

  /** Reference count: the number of matches passing the three conditions. */
  function CountPassing(matches: seq<Vulnerability>, settings: Settings, kindOf: Informational -> Option<WarningKind>): nat
  {
    if matches == [] then 0
    else CountPassing(matches[..|matches| - 1], settings, kindOf)
           + (if Passes(matches[|matches| - 1], settings, kindOf) then 1 else 0)
  }

  /** Each passing match yields exactly one warning and no other match yields
      any: the number of warnings is the number of passing matches. */
  lemma {:induction false} CollectCount(matches: seq<Vulnerability>, settings: Settings, kindOf: Informational -> Option<WarningKind>)
    ensures |Collect(matches, settings, kindOf)| == CountPassing(matches, settings, kindOf)
    decreases |matches|
  {
    if matches != [] {
      CollectCount(matches[..|matches| - 1], settings, kindOf);
    }
  }

  /** A warning is collected exactly when some passing match yields it. */
  lemma {:induction false} CollectMembership(matches: seq<Vulnerability>, settings: Settings, kindOf: Informational -> Option<WarningKind>, w: Warning)
    ensures w in Collect(matches, settings, kindOf) <==>
              exists i :: 0 <= i < |matches| && Passes(matches[i], settings, kindOf) && w == WarningFor(matches[i], kindOf)
    decreases |matches|
  {
    if matches != [] {
      var init := matches[..|matches| - 1];
      CollectMembership(init, settings, kindOf, w);
      if exists i :: 0 <= i < |init| && Passes(init[i], settings, kindOf) && w == WarningFor(init[i], kindOf) {
        var i :| 0 <= i < |init| && Passes(init[i], settings, kindOf) && w == WarningFor(init[i], kindOf);
        assert matches[i] == init[i];
      }
      if exists i :: 0 <= i < |matches| && Passes(matches[i], settings, kindOf) && w == WarningFor(matches[i], kindOf) {
        var i :| 0 <= i < |matches| && Passes(matches[i], settings, kindOf) && w == WarningFor(matches[i], kindOf);
        if i < |init| {
          assert init[i] == matches[i];
        }
      }
    }
  }

  // ---------------------------------------------------------------------------
  // Warnings: grouping by kind
  // ---------------------------------------------------------------------------

  /** Every warning sits under its own kind and no bucket is empty. */
  predicate WellFormed(info: WarningInfo)
  {
    forall k :: k in info ==> info[k] != [] && forall j :: 0 <= j < |info[k]| ==> info[k][j].kind == k
  }

  /** The get-or-create-then-append step of `find_warnings`: the warning goes
      at the end of its kind's bucket, created if missing; no other bucket and
      no earlier entry changes. */
  function AddWarning(info: WarningInfo, w: Warning): (updated: WarningInfo)
    ensures updated.Keys == info.Keys + {w.kind}
    ensures updated[w.kind] == (if w.kind in info then info[w.kind] else []) + [w]
    ensures forall k :: k in info && k != w.kind ==> updated[k] == info[k]
    ensures WellFormed(info) ==> WellFormed(updated)
  {
    if w.kind in info then info[w.kind := info[w.kind] + [w]] else info[w.kind := [w]]
  }

  /** The warnings grouped by kind, added one after the other. */
  function Group(ws: seq<Warning>): (info: WarningInfo)
    ensures WellFormed(info)
  {
    if ws == [] then map[] else AddWarning(Group(ws[..|ws| - 1]), ws[|ws| - 1])
  }

  /** The warnings of one kind, in order. */
  function OfKind(ws: seq<Warning>, kind: WarningKind): seq<Warning>
  {
    if ws == [] then []
    else OfKind(ws[..|ws| - 1], kind) + (if ws[|ws| - 1].kind == kind then [ws[|ws| - 1]] else [])
  }

  /** Each bucket holds exactly the warnings of its kind, in the order they
      were found, and a kind has a bucket exactly when it has a warning. */
  lemma {:induction false} GroupBucket(ws: seq<Warning>, kind: WarningKind)
    ensures kind in Group(ws) <==> OfKind(ws, kind) != []
    ensures kind in Group(ws) ==> Group(ws)[kind] == OfKind(ws, kind)
    decreases |ws|
  {
    if ws != [] {
      GroupBucket(ws[..|ws| - 1], kind);
    }
  }

  /** Membership in the warnings of one kind. */
  lemma {:induction false} OfKindMembership(ws: seq<Warning>, kind: WarningKind, w: Warning)
    ensures w in OfKind(ws, kind) <==> w in ws && w.kind == kind
    decreases |ws|
  {
    if ws != [] {
      var init := ws[..|ws| - 1];
      OfKindMembership(init, kind, w);
      assert ws == init + [ws[|ws| - 1]];
    }
  }

  /** A warning appears under a key exactly when it was found and the key is
      its kind, so no warning is filed under two kinds. */
  lemma GroupPlacement(ws: seq<Warning>, kind: WarningKind, w: Warning)
    ensures (kind in Group(ws) && w in Group(ws)[kind]) <==> (w in ws && w.kind == kind)
  {
    GroupBucket(ws, kind);
    OfKindMembership(ws, kind, w);
  }

  /** An arbitrary key of a non-empty map. */
  ghost function PickKey(info: WarningInfo): (k: WarningKind)
    requires info != map[]
    ensures k in info
  {
    var k :| k in info; k
  }

  /** The number of warnings across all buckets. */
  ghost function Total(info: WarningInfo): nat
    decreases |info|
  {
    if info == map[] then 0
    else
      var k := PickKey(info);
      assert (info - {k}).Keys == info.Keys - {k};
      |info[k]| + Total(info - {k})
  }

  /** Total can be split off at any key. */
  lemma {:induction false} TotalSplit(info: WarningInfo, k: WarningKind)
    requires k in info
    ensures Total(info) == |info[k]| + Total(info - {k})
    decreases |info|
  {
    var j := PickKey(info);
    if j != k {
      var rest := info - {j} - {k};
      assert (info - {j}).Keys == info.Keys - {j};
      assert (info - {k}).Keys == info.Keys - {k};
      TotalSplit(info - {j}, k);
      TotalSplit(info - {k}, j);
      assert info - {j} - {k} == info - {k} - {j};
    }
  }

  /** Adding a warning raises the total by exactly one. */
  lemma AddWarningTotal(info: WarningInfo, w: Warning)
    ensures Total(AddWarning(info, w)) == Total(info) + 1
  {
    var updated := AddWarning(info, w);
    TotalSplit(updated, w.kind);
    assert updated - {w.kind} == info - {w.kind};
    if w.kind in info {
      TotalSplit(info, w.kind);
    } else {
      assert info - {w.kind} == info;
    }
  }

  /** Grouping loses and duplicates nothing: the buckets hold as many warnings
      as were found. */
  lemma {:induction false} GroupTotal(ws: seq<Warning>)
    ensures Total(Group(ws)) == |ws|
    decreases |ws|
  {
    if ws != [] {
      GroupTotal(ws[..|ws| - 1]);
      AddWarningTotal(Group(ws[..|ws| - 1]), ws[|ws| - 1]);
    }
  }

  // ---------------------------------------------------------------------------
  // find_warnings
  // ---------------------------------------------------------------------------

  /** The warnings section: the informational matches, classified and grouped. */
  function WarningsOf(db: Database, lockfile: Lockfile, settings: Settings, kindOf: Informational -> Option<WarningKind>): (info: WarningInfo)
    ensures WellFormed(info)
  {
    Group(Collect(db.queryVulnerabilities(lockfile, InformationalQueryOf(settings)), settings, kindOf))
  }

  /** One iteration of `find_warnings`: the grouped warnings of one more
      match are those of the matches before it, plus its own warning if any. */
  lemma GroupCollectStep(matches: seq<Vulnerability>, i: nat, settings: Settings, kindOf: Informational -> Option<WarningKind>)
    requires i < |matches|
    ensures Group(Collect(matches[..i + 1], settings, kindOf))
              == match Classify(matches[i], settings, kindOf)
                 case Some(w) => AddWarning(Group(Collect(matches[..i], settings, kindOf)), w)
                 case None => Group(Collect(matches[..i], settings, kindOf))
  {
    var found := Collect(matches[..i], settings, kindOf);
    assert matches[..i + 1][..i] == matches[..i];
    match Classify(matches[i], settings, kindOf)
    case Some(w) =>
      assert (found + [w])[..|found|] == found;
    case None =>
      assert found + [] == found;
  }

  /** `find_warnings`: runs the informational query and files each match that
      passes the three conditions under its kind. */
  method FindWarnings(db: Database, lockfile: Lockfile, settings: Settings, kindOf: Informational -> Option<WarningKind>)
    returns (warnings: WarningInfo)
    ensures warnings == WarningsOf(db, lockfile, settings, kindOf)
  {
    var query := BuildQuery(settings);
    query := query.WithInformational(true);
    var matches := db.queryVulnerabilities(lockfile, query);
    warnings := map[];
    for i := 0 to |matches|
      invariant warnings == Group(Collect(matches[..i], settings, kindOf))
    {
      GroupCollectStep(matches, i, settings, kindOf);
      var advisory := matches[i].advisory;
      if advisory.id in settings.ignore {
        assert Classify(matches[i], settings, kindOf) == None;
        continue;
      }
      if Requested(settings.informationalWarnings, advisory.informational) {
        var kind;
        match kindOf(advisory.informational.value) {
          case Some(k) => kind := k;
          case None =>
            assert Classify(matches[i], settings, kindOf) == None;
            continue;
        }
        var warning := Warning(kind, matches[i].package, Some(advisory), Some(matches[i].versions));
        assert Classify(matches[i], settings, kindOf) == Some(warning);
        if warning.kind in warnings {
          warnings := warnings[warning.kind := warnings[warning.kind] + [warning]];
        } else {
          warnings := warnings[warning.kind := [warning]];
        }
      } else {
        assert Classify(matches[i], settings, kindOf) == None;
      }
    }
    assert matches[..|matches|] == matches;
  }

  /** The warnings section holds one warning per passing informational match. */
  lemma WarningsTotal(db: Database, lockfile: Lockfile, settings: Settings, kindOf: Informational -> Option<WarningKind>)
    ensures Total(WarningsOf(db, lockfile, settings, kindOf))
              == CountPassing(db.queryVulnerabilities(lockfile, InformationalQueryOf(settings)), settings, kindOf)
  {
    var matches := db.queryVulnerabilities(lockfile, InformationalQueryOf(settings));
    GroupTotal(Collect(matches, settings, kindOf));
    CollectCount(matches, settings, kindOf);
  }

  /** A warning is filed under a kind exactly when a passing informational
      match yields it and that is its kind. */
  lemma WarningsPlacement(db: Database, lockfile: Lockfile, settings: Settings, kindOf: Informational -> Option<WarningKind>,
                          kind: WarningKind, w: Warning)
    ensures var info := WarningsOf(db, lockfile, settings, kindOf);
            var matches := db.queryVulnerabilities(lockfile, InformationalQueryOf(settings));
            (kind in info && w in info[kind]) <==>
              (w.kind == kind &&
               exists i :: 0 <= i < |matches| && Passes(matches[i], settings, kindOf) && w == WarningFor(matches[i], kindOf))
  {
    var matches := db.queryVulnerabilities(lockfile, InformationalQueryOf(settings));
    GroupPlacement(Collect(matches, settings, kindOf), kind, w);
    CollectMembership(matches, settings, kindOf, w);
  }

  // ---------------------------------------------------------------------------
  // Report::generate
  // ---------------------------------------------------------------------------

  /** Vulnerability report for a given lockfile. */
  datatype Report = Report(
    database: DatabaseInfo,
    lockfile: LockfileInfo,
    settings: Settings,
    vulnerabilities: VulnerabilityInfo,
    warnings: WarningInfo)

  /** The matches of the base (non-informational) query. */
  function BaseMatches(db: Database, lockfile: Lockfile, settings: Settings): seq<Vulnerability>
  {
    db.queryVulnerabilities(lockfile, QueryOf(settings))
  }

  /** `Report::generate`: the vulnerabilities are the base matches minus the
      ignored advisories, summarised consistently; the warnings are well formed;
      settings are copied and provenance projected. */
  function Generate(db: Database, lockfile: Lockfile, settings: Settings, kindOf: Informational -> Option<WarningKind>): (report: Report)
    ensures report.vulnerabilities.Valid()
    ensures forall v :: v in report.vulnerabilities.list <==>
                          v in BaseMatches(db, lockfile, settings) && v.advisory.id !in settings.ignore
    ensures forall v :: multiset(report.vulnerabilities.list)[v] ==
                          if v.advisory.id in settings.ignore then 0 else multiset(BaseMatches(db, lockfile, settings))[v]
    ensures WellFormed(report.warnings)
    ensures report.settings == settings
    ensures report.lockfile.dependencyCount == |lockfile.packages|
    ensures report.database.advisoryCount == |db.advisories|
    ensures report.warnings == WarningsOf(db, lockfile, settings, kindOf)
    ensures report.database == NewDatabaseInfo(db)
    ensures report.lockfile == NewLockfileInfo(lockfile)
  {
    var vulnerabilities := RemoveIgnored(BaseMatches(db, lockfile, settings), settings.ignore);
    var warnings := WarningsOf(db, lockfile, settings, kindOf);
    Report(NewDatabaseInfo(db), NewLockfileInfo(lockfile), settings, NewVulnerabilityInfo(vulnerabilities), warnings)
  }

  /** The vulnerability list keeps the query order: a base query that returns
      `a` then `b` yields the kept part of `a` then the kept part of `b`. */
  lemma GenerateKeepsOrder(db: Database, lockfile: Lockfile, settings: Settings, kindOf: Informational -> Option<WarningKind>,
                           a: seq<Vulnerability>, b: seq<Vulnerability>)
    requires BaseMatches(db, lockfile, settings) == a + b
    ensures Generate(db, lockfile, settings, kindOf).vulnerabilities.list
              == RemoveIgnored(a, settings.ignore) + RemoveIgnored(b, settings.ignore)
  {
    RemoveIgnoredAppend(a, b, settings.ignore);
  }

  // ---------------------------------------------------------------------------
  // Worked examples
  // ---------------------------------------------------------------------------

  /** Ignoring ADV-001 out of ADV-001 and ADV-002 leaves one vulnerability. */
  lemma IgnoreExample(lockfile: Lockfile, kindOf: Informational -> Option<WarningKind>)
    ensures var pkg := Package("demo", "1.0.0");
            var vs := Versions([], []);
            var a := Vulnerability(Advisory("ADV-001", None), pkg, vs);
            var b := Vulnerability(Advisory("ADV-002", None), pkg, vs);
            var db := Database([a.advisory, b.advisory], None, (l: Lockfile, q: Query) => [a, b]);
            var settings := Settings(None, None, None, ["ADV-001"], []);
            Generate(db, lockfile, settings, kindOf).vulnerabilities == VulnerabilityInfo(true, 1, [b])
  {
    var pkg := Package("demo", "1.0.0");
    var vs := Versions([], []);
    var a := Vulnerability(Advisory("ADV-001", None), pkg, vs);
    var b := Vulnerability(Advisory("ADV-002", None), pkg, vs);
    assert "ADV-002"[6] != "ADV-001"[6];
    assert [a, b][1..] == [b];
    assert [b][1..] == [];
  }

  /** Asking warnings for "unmaintained" only: of an unmaintained and an
      unsound advisory, only the first becomes a warning, under its kind. */
  lemma WarningsExample(db: Database, lockfile: Lockfile, settings: Settings, kindOf: Informational -> Option<WarningKind>,
                        foo: Vulnerability, bar: Vulnerability)
    requires settings == Settings(None, None, None, [], [Informational("unmaintained")])
    requires foo.advisory.informational == Some(Informational("unmaintained"))
    requires bar.advisory.informational == Some(Informational("unsound"))
    requires kindOf(Informational("unmaintained")) == Some(WarningKind("Unmaintained"))
    requires db.queryVulnerabilities(lockfile, InformationalQueryOf(settings)) == [foo, bar]
    ensures WarningsOf(db, lockfile, settings, kindOf)
              == map[WarningKind("Unmaintained") := [Warning(WarningKind("Unmaintained"), foo.package, Some(foo.advisory), Some(foo.versions))]]
  {
    assert "unsound"[2] != "unmaintained"[2];
    var w := Warning(WarningKind("Unmaintained"), foo.package, Some(foo.advisory), Some(foo.versions));
    assert Classify(foo, settings, kindOf) == Some(w);
    assert Classify(bar, settings, kindOf) == None;
    var matches := [foo, bar];
    assert matches[..1] == [foo] && matches[1] == bar;
    assert [foo][..0] == [] && [foo][0] == foo;
    assert Collect([foo], settings, kindOf) == [w];
    assert Collect(matches, settings, kindOf) == Collect([foo], settings, kindOf) + [];
    assert [w][..0] == [];
    assert Group([w]) == map[w.kind := [w]];
  }
}
