/**
 * The CargoProject record of `src/projectparse/cargo.rs`: the manifest path, the
 * index of the line the version was found on and the version text found
 * there, with their setters and getters and the line that carries a new
 * version. The logger reference is left out.
 */
module Cargo {
  import opened Results
  import opened Numerals
  import opened Strings
  import opened SemVer
  import ProjectParse

  datatype CargoProject = CargoProject(projectFile: string, foundLine: usize, versionString: string)

  /** `CargoProject::new`: no line found yet (`usize::MAX`) and an empty version text. */
  function New(projectFile: string): (p: CargoProject)
    ensures GetFoundLine(p) == USIZE_MAX
    ensures GetVersionString(p) == ""
    ensures GetProjectFile(p) == projectFile
  {
    CargoProject(projectFile, USIZE_MAX, "")
  }

  function GetProjectFile(p: CargoProject): string {
    p.projectFile
  }

  function GetFoundLine(p: CargoProject): usize {
    p.foundLine
  }

  function GetVersionString(p: CargoProject): string {
    p.versionString
  }

  /** `set_found_line`: the getter returns the new line; nothing else changes. */
  function SetFoundLine(p: CargoProject, line: usize): (r: CargoProject)
    ensures GetFoundLine(r) == line
    ensures GetVersionString(r) == GetVersionString(p) && GetProjectFile(r) == GetProjectFile(p)
  {
    p.(foundLine := line)
  }

  /** `set_version_string`: the getter returns the new text; nothing else changes. */
  function SetVersionString(p: CargoProject, s: string): (r: CargoProject)
    ensures GetVersionString(r) == s
    ensures GetFoundLine(r) == GetFoundLine(p) && GetProjectFile(r) == GetProjectFile(p)
  {
    p.(versionString := s)
  }

  /**
   * `build_project_line`: the line `  "version": "…",` with the rendered
   * version in place of the dots. This is JSON syntax, although the
   * manifest is TOML. The text between the fixed prefix and suffix is
   * exactly the rendered version, and it parses back to the version.
   */
  function BuildProjectLine(p: CargoProject, next: SemanticVersion): (r: string)
    ensures StartsWith(r, "  \"version\": \"") && EndsWith(r, "\",")
    ensures |r| >= 14 + 2
    ensures r[14..|r| - 2] == Render(next)
    ensures LeadingPartsParse(Split(r[14..|r| - 2], '.'))
    ensures SemVer.New(r[14..|r| - 2]) == Ok(next)
  {
    var r := "  \"version\": \"" + Render(next) + "\",";
    assert r[14..|r| - 2] == Render(next);
    NewRender(next);
    r
  }

  /** `get_project_type` */
  function GetProjectType(p: CargoProject): (t: ProjectParse.ProjectType)
    ensures t == ProjectParse.Cargo
  {
    ProjectParse.Cargo
  }

  /**
   * `read_project_version`: the first line the format's pattern matches
   * gives the found line and the version text, recorded through the
   * setters; with no match the record is unchanged.
   */
  method ReadProjectVersion(p: CargoProject, lines: seq<string>, versionRe: string -> Option<string>)
    returns (r: CargoProject, hasMatch: bool)
    requires |lines| <= USIZE_MAX
    ensures hasMatch <==> exists i :: 0 <= i < |lines| && versionRe(lines[i]).Some?
    ensures !hasMatch ==> r == p
    ensures hasMatch ==>
      && GetFoundLine(r) < |lines|
      && versionRe(lines[GetFoundLine(r)]) == Some(GetVersionString(r))
      && (forall i :: 0 <= i < GetFoundLine(r) ==> versionRe(lines[i]).None?)
      && GetProjectFile(r) == GetProjectFile(p)
  {
    var found := ProjectParse.FirstMatch(lines, versionRe);
    match found {
      case Some((index, cap)) =>
        r := SetVersionString(SetFoundLine(p, index), cap);
        hasMatch := true;
      case None =>
        r := p;
        hasMatch := false;
    }
  }
}
