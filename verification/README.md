# semantic-release core, modelled in Dafny

This project models the pure core of `semantic-release`, a Rust tool that
bumps the version in a project's manifest files based on the commits since
the last release tag. Five pieces are modelled:

- **Version value** (`semver.dfy`, module `SemVer`): the `major.minor.patch`
  record, its parser `new`, its `Display` rendering and the three bumps.
- **Commit classifier** (`git.dfy`, module `Git`): the ordered `BumpLevel`,
  the per-summary rules and the maximum over a list of commits.
- **Tree read and write** (`toml.dfy`, module `TomlDocument`): the recursive
  `get_version` / `update_version` over a table/array/string tree, addressed
  by a configured key split on `.`.
- **Flat JSON map and format dispatch** (`project.dfy`, module `Project`):
  `load_versionfile`, `Json::read_version` and `Json::update_project`.
- **Legacy line reader** (`projectparse.dfy`, `cargo.dfy`, `pom.dfy`):
  manifest detection from directory entries, the first-match line scan, and
  the per-format `CargoProject` / `PomProject` records.

Shared pieces: `results.dfy` (`Option`, `Result`), `numerals.dfy` (`usize`
as the naturals up to 2^64-1, decimal rendering, and `usize`'s parser, which
accepts an optional leading `+` and leading zeros), `strings.dfy` (prefix,
suffix and substring tests; `split` on one character and its inverse `Join`).

Panics of the source (`unwrap`, `expect`, `panic!`, indexing a map with a
missing key, `+= 1` overflow in a debug build) are preconditions. File and
directory reading, the document parsers and the regular expressions are
parameters: a manifest arrives as a parsed tree, a map, or a list of lines,
and each pattern is a matcher from a line to its first capture group.

Where the code departs from the conventions it echoes, the model follows
the code:

- `bump_minor` and `bump_major` increment one field and reset nothing, so
  "1.2.3" bumps to "1.3.3" and "2.2.3", as the source's own tests expect.
  Items 7 and 8 of Semantic Versioning 2.0.0 would reset the lower fields.
- The classifier takes commit summaries only. The rules are the fixed
  prefixes "fix" and "feat" and the substring "BREAKING"; there are no
  configurable token sets and no commit bodies. `src/main.rs:48-52` calls it
  with three arguments, but the one-argument definition is what is modelled.
- Path elements are resolved as the two traversals do. Reading looks an
  element up as a name at a table and as an index at an array. Writing takes
  every element that parses as a number as an index, even at a table. A
  table field with a numeric name is therefore readable but not writable.
- `new` parses a part with `usize`'s parser, so "01.+2.3" is accepted.

## Model

| member | source | states |
|---|---|---|
| SemVer.Render | src/semver/mod.rs:9-13 | the rendering splits on `.` into exactly the three fields in decimal |
| SemVer.New | src/semver/mod.rs:16-43 | too few parts exactly when there are fewer than two dots, too many exactly when there are more than two, success exactly with two; on success each field is its part parsed as `usize`; the first three parts must parse (the `unwrap` panics otherwise) |
| SemVer.NewRender | src/semver/mod.rs:9-43 | parsing a rendered version gives the same version back |
| SemVer.RenderNew | src/semver/mod.rs:70-76 | three canonical numerals joined by dots parse and render back to the same text |
| SemVer.ExtraPartNotParsed | src/semver/mod.rs:28-41 | a fourth part is never parsed: a version followed by `.x` is refused with the too-many-parts error, not a panic |
| SemVer.TooFewExample | src/semver/mod.rs:17-22 | "1.2" is refused with the too-few-parts error |
| SemVer.BumpMajor | src/semver/mod.rs:45-47 | major goes up by one; minor and patch are unchanged |
| SemVer.BumpMinor | src/semver/mod.rs:48-50 | minor goes up by one; major and patch are unchanged (patch is not reset) |
| SemVer.BumpPatch | src/semver/mod.rs:51-53 | patch goes up by one; major and minor are unchanged |
| SemVer.BumpsIncrease | src/semver/mod.rs:45-53 | each bump yields a version of strictly higher precedence |
| SemVer.BumpExamples | src/semver/mod.rs:60-97 | "1.2.3" parses and renders as itself and bumps to "2.2.3", "1.3.3" and "1.2.4" |
| Numerals.ParseUsize | src/semver/mod.rs:31-33 | a numeral parses exactly when it is a non-empty run of decimal digits, optionally after one leading `+`, whose value fits in `usize`; leading zeros are accepted and the result is the digits' value; the same parse reads path elements as array indices at src/project/toml.rs:88 and 120 |
| Numerals.Decimal | src/semver/mod.rs:11 | the rendering of a number is a canonical numeral (digits only, no leading zero unless it is "0") whose value is the number |
| Numerals.ParseCanonical | src/semver/mod.rs:31-33 | a canonical numeral that fits in `usize` parses to its value, and that value renders back to the numeral |
| Numerals.ParseDecimal | src/semver/mod.rs:11 | the decimal rendering of any `usize` parses back to it |
| Strings.Split | src/project/toml.rs:39 | splitting gives one more part than there are separators, no part holds the separator, and joining the parts gives back the key |
| Strings.SplitJoin | src/project/toml.rs:51 | splitting a join of separator-free parts gives the parts back |
| Git.LeIsTotalOrder | src/git/mod.rs:4-10 | the level order is reflexive, antisymmetric, transitive and total, with None < Patch < Minor < Major |
| Git.SummaryToBumpLevel | src/git/mod.rs:13-40 | Patch exactly for a "fix" prefix; Minor exactly for a "feat" prefix without "fix"; Major exactly for "BREAKING" anywhere without either prefix; None otherwise |
| Git.FixBeforeBreaking | src/git/mod.rs:17-23 | a "fix" summary is Patch even when it contains "BREAKING" |
| Git.FeaturePrefix | src/git/mod.rs:24-30 | "feature: …" counts as a "feat" prefix |
| Git.BreakingAnywhere | src/git/mod.rs:31-37 | "BREAKING" after the start of the summary still gives Major |
| Git.NoRuleNoBump | src/git/mod.rs:14-39 | a summary no rule fires on gives None |
| Git.CalcBumpLevel | src/git/mod.rs:42-49 | for a non-empty list the result is at least every commit's level and equal to one of them |
| Git.SortedLastIsCalc | src/git/mod.rs:43-48 | the last element of any ascending rearrangement of the per-commit levels is that result |
| Git.OrderIndependent | src/git/mod.rs:43-48 | the result does not depend on the order of the commits |
| Git.AppendMonotone | src/git/mod.rs:43-48 | appending a commit gives the larger of the old result and the new level, so it never lowers the result |
| TomlDocument.GetVersion | src/project/toml.rs:59-98 | reading agrees with the element-by-element resolution: the string reached, or the error where the walk stops (missing field or index, non-numeric element at an array, path continuing past a leaf); the end node must be a string (`as_str().unwrap()`) |
| TomlDocument.UpdateVersion | src/project/toml.rs:101-137 | writing succeeds exactly when the write-resolved address exists, and its result is the tree with that node replaced by the version string; a non-container with path left fails |
| TomlDocument.ReadVersion | src/project/toml.rs:36-46 | the configured key split on `.` is the path read |
| TomlDocument.UpdateProject | src/project/toml.rs:49-55 | the configured key split on `.` is the path written |
| TomlDocument.GetAfterPut | src/project/toml.rs:109-113 | after a write the addressed node is the new leaf, whatever it was before |
| TomlDocument.PutFrame | src/project/toml.rs:115-134 | every node at an address diverging from the written one is unchanged |
| TomlDocument.PutKeepsShape | src/project/toml.rs:115-134 | every container along the written address keeps its kind, field names and length |
| TomlDocument.ResolveAfterPut | src/project/toml.rs:120-134 | after a successful write, read resolution of the same path reaches the new leaf |
| TomlDocument.ReadAfterWrite | src/project/toml.rs:59-137 | after a successful `update_version`, `get_version` on the same path returns the new version without panicking |
| TomlDocument.NumericFieldNotWritable | src/project/toml.rs:120-127 | at a table, an element that parses as a number makes the write fail with a missing path |
| TomlDocument.NumericFieldExample | src/project/toml.rs:69-134 | a table field named "0" is read but cannot be written |
| TomlDocument.UpdateIdempotent | src/project/toml.rs:101-137 | repeating a successful update gives the same tree |
| TomlDocument.PutSameLeaf | src/project/toml.rs:109-113 | writing the leaf already present gives back the same tree |
| TomlDocument.MixedKeys | src/project/toml.rs:39 | "a.0.v" and "a.5.v" split into three elements |
| TomlDocument.MixedDoc | src/project/toml.rs:89-93 | the document `a = [{ v = "1.0.0" }]` as the traversal sees it: its array item is re-wrapped as a value, so the inline table is not a table |
| TomlDocument.MixedNestingRead | src/project/toml.rs:69-97 | in that document, reading "a.0.v" reaches the array item and fails because it is neither table nor array, and "a.5.v" fails as out of bounds |
| TomlDocument.MixedNestingWrite | src/project/toml.rs:115-136 | writing "a.0.v" in that document fails the same way |
| TomlDocument.NoFieldBelowArrayItem | src/project/toml.rs:82-97 | in a parsed document, a path that selects an array item and continues with a non-numeric element fails, for reading and for writing |
| TomlDocument.PutKeepsParserShaped | src/project/toml.rs:109-134 | writing a string value into a parsed document gives a parsed document, with every container along the way keeping its kind |
| TomlDocument.UpdateKeepsParserShaped | src/project/toml.rs:101-137 | a successful update of a parsed document gives a parsed document |
| Project.LoadVersionfile | src/project/mod.rs:25-33 | the JSON type yields the JSON handler and the TOML type the TOML handler, each with its parser's document and the given configuration; a TOML handler holds a tree a parser can produce |
| Project.JsonReadVersion | src/project/mod.rs:52-56 | the whole key, unsplit, names the entry whose string is returned; key present and string-valued are required |
| Project.JsonUpdateProject | src/project/mod.rs:59-75 | the entry at the key becomes the rendered version, every other entry is unchanged, and no key is added; the key must be present beforehand |
| Project.ReadVersion | src/project/mod.rs:17-23 | dispatch of `read_version`: the JSON entry's string, or the string the split key resolves to in the TOML tree, failing exactly when that resolution fails |
| Project.UpdateProject | src/project/mod.rs:17-23 | dispatch of `update_project`: a JSON update always succeeds with the updated map; a TOML update succeeds exactly when the written address exists, with the tree holding the rendered version there; the configuration is kept |
| Project.ReadAfterUpdate | src/project/mod.rs:52-70 | for either handler, a successful update is read back as the rendered version |
| Project.JsonFrame | src/project/mod.rs:67-70 | a JSON update leaves every other string entry reading the same |
| ProjectParse.EntryType | src/projectparse/mod.rs:38-46 | a name ending in "Cargo.toml" is Cargo; otherwise one ending in "package.json" is NodeJs |
| ProjectParse.New | src/projectparse/mod.rs:23-55 | the first qualifying entry decides the type and the file; with none the type is Unknown and the path empty; the found line starts at `usize::MAX` and the version text empty |
| ProjectParse.FirstMatch | src/projectparse/mod.rs:69-83 | the index and capture of the first line the matcher accepts, or none exactly when no line matches |
| ProjectParse.ReadProjectVersionNode | src/projectparse/mod.rs:57-85 | true exactly when some line matches; then the first matching line's index and capture are recorded; otherwise the project is unchanged |
| ProjectParse.ReadProjectVersion | src/projectparse/mod.rs:87-92 | only NodeJs projects are read (other types panic); on a match the first matching line and its capture are recorded and the type and file are kept |
| Cargo.New | src/projectparse/cargo.rs:16-35 | a new record has found line `usize::MAX`, an empty version text and the given path, which `get_project_file` returns |
| Cargo.SetFoundLine | src/projectparse/cargo.rs:41-51 | the found-line getter returns the value set; the other fields are unchanged |
| Cargo.SetVersionString | src/projectparse/cargo.rs:45-63 | the version getter returns the text set; the other fields are unchanged |
| Cargo.BuildProjectLine | src/projectparse/cargo.rs:53-55 | the line is `  "version": "…",` around exactly the rendered version, which parses back to the version |
| Cargo.GetProjectType | src/projectparse/cargo.rs:57-59 | always Cargo |
| Cargo.ReadProjectVersion | src/projectparse/cargo.rs:28-32 | the first matching line's index and capture are recorded; with no match the record is unchanged |
| Pom.New | src/projectparse/pom.rs:16-35 | a new record has found line `usize::MAX`, an empty version text and the given path, which `get_project_file` returns |
| Pom.SetFoundLine | src/projectparse/pom.rs:41-51 | the found-line getter returns the value set; the other fields are unchanged |
| Pom.SetVersionString | src/projectparse/pom.rs:45-62 | the version getter returns the text set; the other fields are unchanged |
| Pom.BuildProjectLine | src/projectparse/pom.rs:53-55 | the line is `  <version>…</version>` around exactly the rendered version, which parses back to the version |
| Pom.GetProjectType | src/projectparse/pom.rs:57-59 | always PomXml |
| Pom.ReadProjectVersion | src/projectparse/pom.rs:28-32 | the first matching line's index and capture are recorded; with no match the record is unchanged |

## Left out

- File and directory I/O (`fs::read_to_string`, `read_dir`, `File::open`):
  contents, entries and lines are parameters. Their errors and the panics on
  unreadable entries or lines are not modelled.
- The document libraries. TOML and JSON parsing are parameters of
  `LoadVersionfile`. The model returns the updated tree or map instead of
  its serialised text, so formatting preservation and pretty-printing are
  not modelled.
- Document-library details below the `is_table` / `is_array` / `get` /
  `get_mut` interface. Inline tables and arrays of tables are `Other`.
  A missing name or index on update is the `Err` branch of toml.rs:126/132.
  Any auto-insertion by the library's mutable indexing is not modelled.
- Writing manifests back to disk, and replacing a found line in a list of
  lines: the modelled code returns new content and never writes files, so
  temporary files and permission bits do not arise.
- Regular-expression semantics: each pattern is an uninterpreted matcher.
  The patch group `[0-0{1,}]` in the three patterns is a character class
  that matches one character out of `0`, `1`, `{`, `,` and `}`. So "1.2.3"
  is not captured at all. For "1.2.10", the two patterns that end in `.*`
  (src/projectparse/mod.rs:60 and src/projectparse/cargo.rs:30) capture
  "1.2.1", while the `pom.rs` pattern, which needs `</version>` straight
  after that one character, captures nothing. The model does not express
  this.
- `read_project_version_regex`, the trait default method that `cargo.rs`
  and `pom.rs` call, is not part of this model. The scan at
  src/projectparse/mod.rs:69-83 stands in for it. The `Project` trait is
  not part of this model either; `PomXml` is added to the project-type enum
  because pom.rs returns it.
- The `println!` in the line scan, all `tracing` output and the logger.
- `src/main.rs` orchestration, git access, CLI parsing, configuration
  loading and template creation.
- SemVer.BumpMajor: the `+= 1` overflow at `usize::MAX` is a precondition
  (the debug-build panic); release-build wrap-around is not modelled.
- SemVer.BumpMinor: as BumpMajor, overflow is a precondition.
- SemVer.BumpPatch: as BumpMajor, overflow is a precondition.
- `usize` is 64 bits wide; other widths are not modelled.
