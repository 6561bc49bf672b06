/**
 * The version-file handlers of `src/project/mod.rs`: a JSON manifest is a
 * flat map addressed by the whole configured key, a TOML manifest is a
 * document tree addressed by the key split on `.`, and `load_versionfile`
 * picks the handler from the configured project type.
 */
module Project {
  import opened Results
  import opened Strings
  import opened SemVer
  import TomlDocument

  /** The configured manifest format (`config::ProjectType`). */
  datatype ProjectType = Json | Toml

  /** One configured manifest (`config::ProjectFile`). */
  datatype ProjectFile = ProjectFile(path: string, key: string, projectType: ProjectType)

  /** A top-level JSON value: a string, or any other value kind. */
  datatype JsonValue = JString(text: string) | JOther

  /** The manifest's top-level object (`HashMap<String, serde_json::Value>`). */
  type JsonObject = map<string, JsonValue>

  /** A loaded manifest together with its configuration. */
  datatype VersionFile =
    | JsonFile(json: JsonObject, config: ProjectFile)
    | TomlFile(toml: TomlDocument.Node, config: ProjectFile)

  /** Why reading or updating a manifest failed. */
  datatype Error = ParseFailed(message: string) | Lookup(error: TomlDocument.LookupError)

  /**
   * `load_versionfile`: the project type selects the handler, and the
   * handler's parser turns the file content into its document. Reading
   * the file and the two parsers are outside the model; the parsers are
   * parameters. The TOML parser, like the document library, yields only
   * trees of the shape `TomlDocument.ParserShaped` describes.
   */
  function LoadVersionfile(
    config: ProjectFile,
    content: string,
    parseJson: string -> Result<JsonObject, string>,
    parseToml: string -> Result<TomlDocument.Node, string>
  ): (r: Result<VersionFile, Error>)
    requires parseToml(content).Ok? ==> TomlDocument.ParserShaped(parseToml(content).value)
    ensures r.Ok? ==> r.value.config == config
    ensures r.Ok? ==> (r.value.JsonFile? <==> config.projectType == Json)
    ensures config.projectType == Json ==>
      && (r.Ok? <==> parseJson(content).Ok?)
      && (r.Ok? ==> r.value.json == parseJson(content).value)
    ensures config.projectType == Toml ==>
      && (r.Ok? <==> parseToml(content).Ok?)
      && (r.Ok? ==> r.value.toml == parseToml(content).value)
    ensures r.Ok? && r.value.TomlFile? ==> TomlDocument.ParserShaped(r.value.toml)
  {
    match config.projectType
    case Json =>
      (match parseJson(content)
       case Ok(json) => Ok(JsonFile(json, config))
       case Err(m) => Err(ParseFailed(m)))
    case Toml =>
      (match parseToml(content)
       case Ok(doc) => Ok(TomlFile(doc, config))
       case Err(m) => Err(ParseFailed(m)))
  }

  /**
   * `Json::read_version`: the whole key, not split, names one top-level
   * entry. A missing key (`json[&key]`) or a non-string value
   * (`as_str().unwrap()`) panics in the source, hence the precondition.
   */
  function JsonReadVersion(json: JsonObject, key: string): (r: string)
    requires key in json && json[key].JString?
    ensures json[key] == JString(r)
  {
    json[key].text
  }

  /**
   * `Json::update_project` without the pretty-printing: the entry at the
   * key becomes the rendered version. `insert(..).unwrap()` panics when
   * the key had no previous value, hence the precondition.
   */
  function JsonUpdateProject(json: JsonObject, key: string, v: SemanticVersion): (r: JsonObject)
    requires key in json
    ensures r.Keys == json.Keys
    ensures r[key] == JString(Render(v))
    ensures forall k :: k in json && k != key ==> r[k] == json[k]
  {
    json[key := JString(Render(v))]
  }

  /** The panic-free inputs of `read_version` for either handler. */
  predicate CanReadVersion(vf: VersionFile) {
    match vf
    case JsonFile(json, config) => config.key in json && json[config.key].JString?
    case TomlFile(doc, config) => TomlDocument.ReadsString(doc, Split(config.key, '.'))
  }

  /** The panic-free inputs of `update_project` for either handler. */
  predicate CanUpdateProject(vf: VersionFile) {
    vf.JsonFile? ==> vf.config.key in vf.json
  }

  /** `VersionFile::read_version`, dispatched on the handler. */
  function ReadVersion(vf: VersionFile): (r: Result<string, Error>)
    requires CanReadVersion(vf)
    ensures vf.JsonFile? ==> r == Ok(JsonReadVersion(vf.json, vf.config.key))
    ensures vf.TomlFile? ==>
      && (r.Ok? <==> TomlDocument.Resolve(vf.toml, Split(vf.config.key, '.')).Ok?)
      && (r.Ok? ==> TomlDocument.Resolve(vf.toml, Split(vf.config.key, '.')) == Ok(TomlDocument.Str(r.value)))
  {
    match vf
    case JsonFile(json, config) => Ok(JsonReadVersion(json, config.key))
    case TomlFile(doc, config) =>
      (match TomlDocument.ReadVersion(doc, config.key)
       case Ok(s) => Ok(s)
       case Err(e) => Err(Lookup(e)))
  }

  /**
   * `VersionFile::update_project`, dispatched on the handler; the result
   * is the updated manifest rather than its serialised text.
   */
  function UpdateProject(vf: VersionFile, v: SemanticVersion): (r: Result<VersionFile, Error>)
    requires CanUpdateProject(vf)
    ensures r.Ok? ==> r.value.config == vf.config && (r.value.JsonFile? <==> vf.JsonFile?)
    ensures vf.JsonFile? ==> r == Ok(JsonFile(JsonUpdateProject(vf.json, vf.config.key, v), vf.config))
    ensures vf.TomlFile? ==>
      var put := TomlDocument.Put(vf.toml, TomlDocument.WriteSels(Split(vf.config.key, '.')), TomlDocument.Str(Render(v)));
      && (r.Ok? <==> put.Some?)
      && (r.Ok? ==> put == Some(r.value.toml))
  {
    match vf
    case JsonFile(json, config) => Ok(JsonFile(JsonUpdateProject(json, config.key, v), config))
    case TomlFile(doc, config) =>
      (match TomlDocument.UpdateProject(doc, config.key, Render(v))
       case Ok(doc') => Ok(TomlFile(doc', config))
       case Err(e) => Err(Lookup(e)))
  }

  /**
   * Read-after-update for both handlers: a successful update is read back
   * as the rendered version, without panicking.
   */
  lemma ReadAfterUpdate(vf: VersionFile, v: SemanticVersion)
    requires CanUpdateProject(vf)
    requires UpdateProject(vf, v).Ok?
    ensures CanReadVersion(UpdateProject(vf, v).value)
    ensures ReadVersion(UpdateProject(vf, v).value) == Ok(Render(v))
  {
    if vf.TomlFile? {
      var path := Split(vf.config.key, '.');
      assert path[0..] == path;
      TomlDocument.ReadAfterWrite(vf.toml, path, Render(v));
    }
  }

  /** A JSON update leaves every other entry readable with its old value. */
  lemma JsonFrame(json: JsonObject, key: string, v: SemanticVersion, other: string)
    requires key in json && other in json && other != key && json[other].JString?
    ensures JsonReadVersion(JsonUpdateProject(json, key, v), other) == JsonReadVersion(json, other)
  {
  }
}
