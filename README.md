# rustsec report generation, in Dafny

This project models the report generator of the `rustsec` crate (`rustsec/src/report.rs`).
The generator takes the matches an advisory database returns for a `Cargo.lock`. From them it builds:

- the vulnerability summary: the matches whose advisory ID is not ignored, with `found` and `count`;
- the warnings section: informational advisories, classified by three conditions and grouped by warning kind in a map from kind to list;
- provenance: the advisory count, the latest database commit, and the number of lockfile packages.

Files:

- `wrappers.dfy` holds Rust's `Option`.
- `collaborators.dfy` (module `Collaborators`) holds the types the report code borrows from the rest of the crate. These are advisories, packages, version ranges, warnings, the `Query` builder, the lockfile and the database. Platforms, severities, informational categories and warning kinds are opaque names. `Database::query_vulnerabilities` is a function-typed field of `Database`. It is deterministic: the same lockfile and query always give the same ordered matches.
- `report.dfy` (module `Report`) holds the core.
  - `Settings::query` is the method `BuildQuery`, which reassigns the query step by step. It is proved equal to the function `QueryOf`.
  - `find_warnings` is the method `FindWarnings`, which loops with early `continue`s and updates the map in place. It is proved equal to `WarningsOf`, which is the grouping (`Group`) of the classified matches (`Collect`).
  - `Report::generate`, `VulnerabilityInfo::new`, `LockfileInfo::new` and `DatabaseInfo::new` are functions.
  - The properties are lemmas about these functions.

`Informational::warning_kind()` is not part of this model. Every operation that needs it takes it as a parameter `kindOf: Informational -> Option<WarningKind>`, so the proofs hold for any such mapping.

## Model

| member | source | states |
|---|---|---|
| `Report.QueryOf` | rustsec/src/report.rs:80-99 | the query carries the arch, OS and severity restriction exactly when that setting is present, with its value; it is a security-only (non-informational) query; it does not encode the ignore list |
| `Report.BuildQuery` | rustsec/src/report.rs:83-99 | the step-by-step reassignment of `Settings::query` yields exactly `QueryOf(settings)` |
| `Report.QueryIgnoresFilters` | rustsec/src/report.rs:80-82 | the query depends only on arch, OS and severity, not on the ignored IDs or the requested categories, as the doc comment says |
| `Report.InformationalQueryOf` | rustsec/src/report.rs:178 | the warnings pass uses the settings' query with informational mode switched on and nothing else changed |
| `Report.NewDatabaseInfo` | rustsec/src/report.rs:121-129 | the advisory count is the number of advisories; `last_commit` and `last_updated` are both present exactly when the database has a latest commit, and then carry that commit's id and time |
| `Report.NewLockfileInfo` | rustsec/src/report.rs:140-146 | `dependency_count` is the number of lockfile packages |
| `Report.NewVulnerabilityInfo` | rustsec/src/report.rs:162-170 | the summary is consistent (`count` is the list length and `found` means `count > 0`), `found` holds iff the list is non-empty, and the list is kept as given, order included |
| `Report.ValidInfoIsNew` | rustsec/src/report.rs:149-170 | every consistent `VulnerabilityInfo` is the one `new` builds from its list |
| `Report.RemoveIgnored` | rustsec/src/report.rs:41-45 | a match is kept iff its advisory ID is not ignored; each kept match keeps its multiplicity and no ignored one survives |
| `Report.RemoveIgnoredAppend` | rustsec/src/report.rs:41-45 | the ignore filter works match by match, so kept matches stay in query order |
| `Report.RemoveIgnoredSingle` | rustsec/src/report.rs:44 | a single match is kept exactly when its ID is not in `settings.ignore` |
| `Report.Requested` | rustsec/src/report.rs:190-194 | the `any` test holds iff the advisory has an informational category and that category is one of the requested ones; so the `expect` that follows it cannot fail |
| `Report.Classify` | rustsec/src/report.rs:183-210 | a match yields a warning iff it is not ignored, its category is requested and the category maps to a kind; the warning then carries that kind, the package, the advisory and the version ranges |
| `Report.Collect` | rustsec/src/report.rs:183-210 | the loop yields no more warnings than there are matches |
| `Report.CollectAppend` | rustsec/src/report.rs:183-219 | warnings are produced match by match: the warnings of matches `a` then `b` are those of `a` followed by those of `b`, so they keep query order |
| `Report.CollectCount` | rustsec/src/report.rs:183-221 | the number of warnings found equals the number of matches passing the three conditions, so no match is counted twice |
| `Report.CollectMembership` | rustsec/src/report.rs:183-210 | a warning is found iff some passing match yields it |
| `Report.AddWarning` | rustsec/src/report.rs:212-217 | get-or-create-then-append: the warning ends its kind's bucket (new if missing) after the bucket's earlier entries, other buckets are unchanged, and well-formedness is kept |
| `Report.Group` | rustsec/src/report.rs:205-217 | grouping gives a well-formed map: every warning sits under its own kind and no bucket is empty |
| `Report.GroupBucket` | rustsec/src/report.rs:212-216 | a kind has a bucket iff some warning has that kind, and its bucket is exactly the warnings of that kind in the order they were found |
| `Report.GroupPlacement` | rustsec/src/report.rs:205-217 | a warning is under a key iff it was found and the key is its own kind, so no warning appears under two keys |
| `Report.AddWarningTotal` | rustsec/src/report.rs:212-217 | one append raises the number of warnings across all buckets by exactly one |
| `Report.GroupTotal` | rustsec/src/report.rs:205-221 | the buckets hold as many warnings as were found: none lost, none duplicated |
| `Report.WarningsOf` | rustsec/src/report.rs:177-222 | the warnings section is well formed |
| `Report.GroupCollectStep` | rustsec/src/report.rs:183-217 | one loop iteration adds the current match's warning to its bucket when it passes, and leaves the map unchanged when it does not |
| `Report.FindWarnings` | rustsec/src/report.rs:177-222 | the loop over the informational matches, with its early `continue`s and in-place bucket updates, returns exactly `WarningsOf` |
| `Report.WarningsTotal` | rustsec/src/report.rs:183-221 | the warnings across all buckets number exactly the informational matches that pass the three conditions |
| `Report.WarningsPlacement` | rustsec/src/report.rs:183-217 | a warning is under a kind iff that is its kind and some informational match passing the three conditions yields it |
| `Report.Generate` | rustsec/src/report.rs:40-57 | the vulnerability list holds exactly the base-query matches whose ID is not ignored, with their multiplicities; the summary is consistent; the warnings section is exactly the `find_warnings` result (`WarningsOf`), so it is well formed; the settings are copied; the lockfile and database info are those `LockfileInfo::new` and `DatabaseInfo::new` build |
| `Report.GenerateKeepsOrder` | rustsec/src/report.rs:41-45 | the vulnerability list follows query order: matches `a` then `b` give the kept part of `a` then the kept part of `b` |
| `Report.IgnoreExample` | rustsec/src/report.rs:40-57 | ignoring ADV-001 out of ADV-001 and ADV-002 gives `found = true`, `count = 1`, list `[ADV-002]` |
| `Report.WarningsExample` | rustsec/src/report.rs:177-222 | when only "unmaintained" is requested, an unmaintained and an unsound match give one bucket holding the unmaintained warning |

## Left out

- serde serialisation, the JSON field renames and the RFC 3339 timestamp format are not modelled: they are formatting, not logic.
- The `git` feature gate is not modelled: `DatabaseInfo` is always part of the report. The commit hash is a string already rendered as hex, and the commit time is an integer.
- The inside of `Database::query_vulnerabilities` is not modelled: advisory storage, severity comparison and version-range matching belong to the database. The severity filter therefore acts only through the query value, and the claim that low-severity advisories never reach the report rests on the database honouring it.
- The `Query` builder is reduced to the restrictions the report sets: arch, OS, severity and informational mode. Any other scoping done by `Query::crate_scope()` is not represented.
- `Informational::warning_kind()` is not part of this model. It is a parameter, so every property holds for any mapping from category to optional kind.
- `Warning::new` is a plain record construction, and cloning advisories and version ranges is value copying.
- `usize` counts are `nat`: overflow is not modelled, because counts are bounded by in-memory list sizes.
- `WarningInfo` is an unordered Dafny `map`, so the key order of the crate's map type is not modelled. Order within each bucket is modelled.
- Idempotence of `Report::generate` has no lemma: `Generate` is a function of its inputs, so it holds by construction.
