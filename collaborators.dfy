/** The types the report generator borrows from the rest of the crate: advisories,
    lockfile packages, version ranges, warnings, the query builder and the advisory
    database. Only what the report code reads or builds is represented; platform,
    severity and category values are opaque names. */
module Collaborators {

  import opened Wrappers

  /** An advisory identifier such as "RUSTSEC-2019-0001". */
  type Id = string

  /** Target CPU architecture (`platforms::target::Arch`). */
  datatype Arch = Arch(name: string)

  /** Target operating system (`platforms::target::OS`). */
  datatype OS = OS(name: string)

  /** Severity threshold (`advisory::Severity`). */
  datatype Severity = Severity(name: string)

  /** Informational advisory category (`advisory::Informational`), e.g. "unmaintained". */
  datatype Informational = Informational(name: string)

  /** Warning category used as the key of the warnings section (`warning::WarningKind`). */
  datatype WarningKind = WarningKind(name: string)

  /** The fields of an advisory the report reads: its ID and its informational category. */
  datatype Advisory = Advisory(id: Id, informational: Option<Informational>)

  /** A resolved package of the lockfile. */
  datatype Package = Package(name: string, version: string)

  /** The version ranges an advisory states (patched and unaffected requirements). */
  datatype Versions = Versions(patched: seq<string>, unaffected: seq<string>)

  /** One database match: an advisory affecting a package of the lockfile. */
  datatype Vulnerability = Vulnerability(advisory: Advisory, package: Package, versions: Versions)

  /** A warning about a dependency, as `Warning::new` builds it. */
  datatype Warning = Warning(kind: WarningKind, package: Package, advisory: Option<Advisory>, versions: Option<Versions>)

  /** The parsed `Cargo.lock`. */
  datatype Lockfile = Lockfile(packages: seq<Package>)

  /** A database query: the platform and severity restrictions and whether
      informational advisories are returned. Other scoping the builder does is
      not represented. */
  datatype Query = Query(targetArch: Option<Arch>, targetOs: Option<OS>, severity: Option<Severity>, informational: bool)
  {
    function TargetArch(arch: Arch): Query { this.(targetArch := Some(arch)) }
    function TargetOs(os: OS): Query { this.(targetOs := Some(os)) }
    function WithSeverity(severity: Severity): Query { this.(severity := Some(severity)) }
    function WithInformational(informational: bool): Query { this.(informational := informational) }
  }

  /** `Query::crate_scope()`: every crate, no platform or severity restriction,
      security advisories only. */
  function CrateScope(): Query
  {
    Query(None, None, None, false)
  }

  /** The most recent commit of the database repository. `commitId` is the
      commit hash already rendered as hex; `timestamp` is the commit time. */
  datatype Commit = Commit(commitId: string, timestamp: int)

  /** The advisory database: its advisories, its latest commit when it has a
      history, and `query_vulnerabilities`, taken as a given function from a
      lockfile and a query to the ordered matches. */
  datatype Database = Database(
    advisories: seq<Advisory>,
    latestCommit: Option<Commit>,
    queryVulnerabilities: (Lockfile, Query) -> seq<Vulnerability>)
}
