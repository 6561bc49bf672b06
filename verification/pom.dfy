/**
 * The PomProject record of `src/projectparse/pom.rs`: the manifest path, the
 * index of the line the version was found on and the version text found
 * there, with their setters and getters and the line that carries a new
 * version. The logger reference is left out.
 */
module Pom {
  import opened Results
  import opened Numerals
  import opened Strings
  import opened SemVer
  import ProjectParse

  datatype PomProject = PomProject(projectFile: string, foundLine: usize, versionString: string)

  /** `PomProject::new`: no line found yet (`usize::MAX`) and an empty version text. */
  function New(projectFile: string): (p: PomProject)
    ensures GetFoundLine(p) == USIZE_MAX
    ensures GetVersionString(p) == ""
    ensures GetProjectFile(p) == projectFile
  {
    PomProject(projectFile, USIZE_MAX, "")
  }

  function GetProjectFile(p: PomProject): string {
    p.projectFile
  }

  function GetFoundLine(p: PomProject): usize {
    p.foundLine
  }

  function GetVersionString(p: PomProject): string {
    p.versionString
  }

  /** `set_found_line`: the getter returns the new line; nothing else changes. */
  function SetFoundLine(p: PomProject, line: usize): (r: PomProject)
    ensures GetFoundLine(r) == line
    ensures GetVersionString(r) == GetVersionString(p) && GetProjectFile(r) == GetProjectFile(p)
  {
    p.(foundLine := line)
  }

  /** `set_version_string`: the getter returns the new text; nothing else changes. */
  function SetVersionString(p: PomProject, s: string): (r: PomProject)
    ensures GetVersionString(r) == s
    ensures GetFoundLine(r) == GetFoundLine(p) && GetProjectFile(r) == GetProjectFile(p)
  {
    p.(versionString := s)
  }

  /**
   * `build_project_line`: the line `  <version>…</version>` with the
   * rendered version in place of the dots. The text between the fixed
   * prefix and suffix is exactly the rendered version, and it parses back
   * to the version.
   */
  function BuildProjectLine(p: PomProject, next: SemanticVersion): (r: string)
    ensures StartsWith(r, "  <version>") && EndsWith(r, "</version>")
    ensures |r| >= 11 + 10
    ensures r[11..|r| - 10] == Render(next)
    ensures LeadingPartsParse(Split(r[11..|r| - 10], '.'))
    ensures SemVer.New(r[11..|r| - 10]) == Ok(next)
  {
    var r := "  <version>" + Render(next) + "</version>";
    assert r[11..|r| - 10] == Render(next);
    NewRender(next);
    r
  }

  /** `get_project_type` */
  function GetProjectType(p: PomProject): (t: ProjectParse.ProjectType)
    ensures t == ProjectParse.PomXml
  {
    ProjectParse.PomXml
  }

  /**
   * `read_project_version`: the first line the format's pattern matches
   * gives the found line and the version text, recorded through the
   * setters; with no match the record is unchanged.
   */
  method ReadProjectVersion(p: PomProject, lines: seq<string>, versionRe: string -> Option<string>)
    returns (r: PomProject, hasMatch: bool)
    requires |lines| <= USIZE_MAX
    ensures hasMatch <==> exists i :: 0 <= i < |lines| && versionRe(lines[i]).Some?
    ensures !hasMatch ==> r == p
    ensures hasMatch ==>
      && GetFoundLine(r) < |lines|
      && versionRe(lines[GetFoundLine(r)]) == Some(GetVersionString(r))
      && (forall i :: 0 <= i < GetFoundLine(r) ==> versionRe(lines[i]).None?)
      && GetProjectFile(r) == GetProjectFile(p)
  {
    var found := ProjectParse.FirstMatch(lines, versionRe);
    match found {
      case Some((index, cap)) =>
        r := SetVersionString(SetFoundLine(p, index), cap);
        hasMatch := true;
      case None =>
        r := p;
        hasMatch := false;
    }
  }
}
