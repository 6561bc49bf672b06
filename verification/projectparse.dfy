/**
 * The legacy line-based reader of `src/projectparse/mod.rs`: the manifest
 * type is chosen from the names of the entries of the project directory,
 * and the version is the capture of the first line a pattern matches.
 * Directory listing and file reading are outside the model: the entries
 * and the lines are parameters, and each regular expression is a matcher
 * from a line to its first capture group, if the line matches.
 */
module ProjectParse {
  import opened Results
  import opened Numerals
  import opened Strings

  /**
   * The manifest kinds. `PomXml` is the kind `src/projectparse/pom.rs`
   * reports; `Project::new` never selects it.
   */
  datatype ProjectType = Cargo | NodeJs | Unknown | PomXml

  /** One directory entry: its file name and its full path. */
  datatype DirEntry = DirEntry(fileName: string, path: string)

  datatype Project = Project(
    projectType: ProjectType,
    projectFile: string,
    foundLine: usize,
    versionString: string)

  /** The entry kinds `Project::new` recognises, tried in this order. */
  function EntryType(fileName: string): (t: ProjectType)
    ensures t == Cargo <==> EndsWith(fileName, "Cargo.toml")
    ensures t == NodeJs <==> !EndsWith(fileName, "Cargo.toml") && EndsWith(fileName, "package.json")
    ensures t == Cargo || t == NodeJs || t == Unknown
  {
    if EndsWith(fileName, "Cargo.toml") then Cargo
    else if EndsWith(fileName, "package.json") then NodeJs
    else Unknown
  }

  /**
   * `Project::new`: the first entry whose name ends in "Cargo.toml" or
   * "package.json" decides both the type and the file; later entries are
   * not looked at. Without such an entry the type is Unknown and the
   * file path is empty.
   */
  method New(entries: seq<DirEntry>) returns (p: Project)
    ensures p.foundLine == USIZE_MAX && p.versionString == ""
    ensures p.projectType != PomXml
    ensures p.projectType == Unknown <==>
      forall i :: 0 <= i < |entries| ==> EntryType(entries[i].fileName) == Unknown
    ensures p.projectType == Unknown ==> p.projectFile == ""
    ensures p.projectType != Unknown ==>
      exists i :: 0 <= i < |entries|
        && p.projectType == EntryType(entries[i].fileName)
        && p.projectFile == entries[i].path
        && forall j :: 0 <= j < i ==> EntryType(entries[j].fileName) == Unknown
  {
    var projectType := Unknown;
    var projectFile := "";
    var n := 0;
    while n < |entries|
      invariant 0 <= n <= |entries|
      invariant forall j :: 0 <= j < n ==> EntryType(entries[j].fileName) == Unknown
      invariant projectType == Unknown && projectFile == ""
    {
      var t := EntryType(entries[n].fileName);
      if t != Unknown {
        projectType := t;
        projectFile := entries[n].path;
        break;
      }
      n := n + 1;
    }
    p := Project(projectType, projectFile, USIZE_MAX, "");
  }

  /**
   * The first-match scan of `read_project_version_node` (mod.rs:69-83):
   * the index of the first line the matcher accepts, with its capture, or
   * None when no line matches. Line indices are `usize`, so the number of
   * lines is bounded accordingly.
   */
  method FirstMatch(lines: seq<string>, matcher: string -> Option<string>) returns (found: Option<(usize, string)>)
    requires |lines| <= USIZE_MAX
    ensures found.None? <==> forall i :: 0 <= i < |lines| ==> matcher(lines[i]).None?
    ensures found.Some? ==>
      && found.value.0 < |lines|
      && matcher(lines[found.value.0]) == Some(found.value.1)
      && forall i :: 0 <= i < found.value.0 ==> matcher(lines[i]).None?
  {
    found := None;
    var index := 0;
    while index < |lines|
      invariant 0 <= index <= |lines|
      invariant forall i :: 0 <= i < index ==> matcher(lines[i]).None?
      invariant found.None?
    {
      match matcher(lines[index]) {
        case Some(cap) =>
          found := Some((index, cap));
          break;
        case None =>
      }
      index := index + 1;
    }
  }

  /**
   * `read_project_version_node`: on a match, records the first matching
   * line's index and capture and reports true; otherwise leaves the
   * project as it was and reports false.
   */
  method ReadProjectVersionNode(p: Project, lines: seq<string>, nodeRe: string -> Option<string>)
    returns (p': Project, hasMatch: bool)
    requires |lines| <= USIZE_MAX
    ensures hasMatch <==> exists i :: 0 <= i < |lines| && nodeRe(lines[i]).Some?
    ensures !hasMatch ==> p' == p
    ensures hasMatch ==>
      && p'.foundLine < |lines|
      && nodeRe(lines[p'.foundLine]) == Some(p'.versionString)
      && (forall i :: 0 <= i < p'.foundLine ==> nodeRe(lines[i]).None?)
      && p'.projectType == p.projectType && p'.projectFile == p.projectFile
  {
    var found := FirstMatch(lines, nodeRe);
    match found {
      case Some((index, cap)) =>
        p' := p.(foundLine := index, versionString := cap);
        hasMatch := true;
      case None =>
        p' := p;
        hasMatch := false;
    }
  }

  /**
   * `read_project_version`: only NodeJs projects are handled; every other
   * type panics in the source, hence the precondition.
   */
  method ReadProjectVersion(p: Project, lines: seq<string>, nodeRe: string -> Option<string>)
    returns (p': Project, hasMatch: bool)
    requires p.projectType == NodeJs
    requires |lines| <= USIZE_MAX
    ensures hasMatch <==> exists i :: 0 <= i < |lines| && nodeRe(lines[i]).Some?
    ensures !hasMatch ==> p' == p
    ensures hasMatch ==>
      && p'.foundLine < |lines|
      && nodeRe(lines[p'.foundLine]) == Some(p'.versionString)
      && (forall i :: 0 <= i < p'.foundLine ==> nodeRe(lines[i]).None?)
      && p'.projectType == NodeJs && p'.projectFile == p.projectFile
  {
    p', hasMatch := ReadProjectVersionNode(p, lines, nodeRe);
  }
}
