/**
 * The path-addressed read and write of `src/project/toml.rs`. A parsed
 * document is a tree of tables, arrays, strings and other values; a
 * configured key such as `package.version` is split on `.` into a path,
 * and the two traversals `get_version` and `update_version` walk it.
 *
 * The two traversals resolve a path element differently:
 *  - reading looks an element up as a field name at a table and as a
 *    decimal index at an array (`ReadSel`);
 *  - writing takes every element that parses as a `usize` as an index and
 *    every other element as a name, whatever the node is (`WriteSel`).
 * Both then use the same child access (`Child`), which models the
 * document library's `get` / `get_mut`: a name selects a table field, an
 * index selects an array item, and any other combination finds nothing.
 */
module TomlDocument {
  import opened Results
  import opened Numerals
  import opened Strings

  /**
   * A document node. `Table` and `Array` are the nodes the document
   * library reports as `is_table` / `is_array`; `Str` is a string value;
   * `Other` is every remaining item (numbers, booleans, dates, and the
   * container kinds neither test recognises, such as inline tables and
   * arrays of tables). Not every tree is a parsed document: see
   * `ParserShaped`.
   */
  datatype Node =
    | Table(fields: map<string, Node>)
    | Array(items: seq<Node>)
    | Str(value: string)
    | Other

  /**
   * The trees a parsed document can take. An array item is a value, which
   * `get_version` re-wraps as a value item (toml.rs:91); a value is never
   * a table, so no array item is a `Table` (an inline table is `Other`).
   */
  predicate ParserShaped(node: Node) {
    match node
    case Table(fields) => forall k :: k in fields ==> ParserShaped(fields[k])
    case Array(items) => forall i :: 0 <= i < |items| ==> !items[i].Table? && ParserShaped(items[i])
    case _ => true
  }

  /** How a traversal fails. */
  datatype LookupError =
    | MissingPath            // no such field or index: "Failed to find the desired path"
    | InvalidIndex(element: string)  // an array met a non-numeric element
    | NotAContainer          // the path continues past a leaf: "Failed to find the desired key"

  /** A path element once resolved against the document. */
  datatype Sel = Name(name: string) | Index(index: nat)

  /** The child a selector picks, if any (the library's `get` / `get_mut`). */
  function Child(node: Node, sel: Sel): (c: Option<Node>)
    ensures c.Some? <==>
      (node.Table? && sel.Name? && sel.name in node.fields) ||
      (node.Array? && sel.Index? && sel.index < |node.items|)
  {
    match (node, sel)
    case (Table(fields), Name(name)) => if name in fields then Some(fields[name]) else None
    case (Array(items), Index(k)) => if k < |items| then Some(items[k]) else None
    case _ => None
  }

  /** The node with the child at `sel` replaced by `c`. */
  function Replace(node: Node, sel: Sel, c: Node): (r: Node)
    requires Child(node, sel).Some?
    ensures Child(r, sel) == Some(c)
  {
    match (node, sel)
    case (Table(fields), Name(name)) => Table(fields[name := c])
    case (Array(items), Index(k)) => Array(items[k := c])
  }

  /** The node a sequence of selectors leads to, if any. */
  function Get(node: Node, sels: seq<Sel>): Option<Node>
    decreases |sels|
  {
    if |sels| == 0 then Some(node)
    else match Child(node, sels[0])
      case None => None
      case Some(c) => Get(c, sels[1..])
  }

  /**
   * The tree with the node at `sels` replaced by `leaf`, or None when
   * `sels` leads nowhere.
   */
  function Put(node: Node, sels: seq<Sel>, leaf: Node): (r: Option<Node>)
    ensures r.Some? <==> Get(node, sels).Some?
    decreases |sels|
  {
    if |sels| == 0 then Some(leaf)
    else match Child(node, sels[0])
      case None => None
      case Some(c) =>
        match Put(c, sels[1..], leaf)
        case None => None
        case Some(c') => Some(Replace(node, sels[0], c'))
  }

  /** Read resolution of one element at a node (`get_version`, toml.rs:69-97). */
  function ReadSel(node: Node, element: string): Result<Sel, LookupError>
  {
    match node
    case Table(_) => Ok(Name(element))
    case Array(_) =>
      (match ParseUsize(element)
       case Some(k) => Ok(Index(k))
       case None => Err(InvalidIndex(element)))
    case _ => Err(NotAContainer)
  }

  /** Write resolution of one element (`update_version`, toml.rs:120-134). */
  function WriteSel(element: string): Sel
  {
    match ParseUsize(element)
    case Some(k) => Index(k)
    case None => Name(element)
  }

  function WriteSels(path: seq<string>): (sels: seq<Sel>)
    ensures |sels| == |path|
    ensures forall i :: 0 <= i < |path| ==> sels[i] == WriteSel(path[i])
  {
    seq(|path|, i requires 0 <= i < |path| => WriteSel(path[i]))
  }

  /**
   * Reference reading: resolve the path one element at a time; a failed
   * resolution or a missing child stops the walk.
   */
  function Resolve(node: Node, path: seq<string>): Result<Node, LookupError>
    decreases |path|
  {
    if |path| == 0 then Ok(node)
    else match ReadSel(node, path[0])
      case Err(e) => Err(e)
      case Ok(sel) =>
        match Child(node, sel)
        case None => Err(MissingPath)
        case Some(c) => Resolve(c, path[1..])
  }

  /** `get_version` would not panic: the node the path reaches, if any, is a string. */
  predicate ReadsString(node: Node, path: seq<string>) {
    Resolve(node, path).Ok? ==> Resolve(node, path).value.Str?
  }

  /**
   * `get_version(node, desired_path, current_index)`. Reaching the end of
   * the path at a non-string node makes the source's `as_str().unwrap()`
   * panic, hence the precondition.
   */
  function GetVersion(node: Node, path: seq<string>, i: nat): (r: Result<string, LookupError>)
    requires i <= |path|
    requires ReadsString(node, path[i..])
    ensures Resolve(node, path[i..]).Ok? ==> r == Ok(Resolve(node, path[i..]).value.value)
    ensures Resolve(node, path[i..]).Err? ==> r == Err(Resolve(node, path[i..]).error)
    decreases |path| - i
  {
    assert i < |path| ==> path[i..][0] == path[i] && path[i..][1..] == path[i + 1..];
    if i == |path| then Ok(node.value)
    else
      var key := path[i];
      match node
      case Table(fields) =>
        if key in fields then GetVersion(fields[key], path, i + 1) else Err(MissingPath)
      case Array(items) =>
        (match ParseUsize(key)
         case None => Err(InvalidIndex(key))
         case Some(k) => if k < |items| then GetVersion(items[k], path, i + 1) else Err(MissingPath))
      case _ => Err(NotAContainer)
  }

  /**
   * `update_version(node, desired_path, current_index, version)`: at the
   * end of the path the node is replaced wholesale by the version string;
   * before that, a table or array descends by the write resolution of the
   * element, and anything else fails.
   */
  function UpdateVersion(node: Node, path: seq<string>, i: nat, version: string): (r: Result<Node, LookupError>)
    requires i <= |path|
    ensures r.Ok? <==> Put(node, WriteSels(path[i..]), Str(version)).Some?
    ensures r.Ok? ==> Put(node, WriteSels(path[i..]), Str(version)) == Some(r.value)
    ensures i < |path| && !node.Table? && !node.Array? ==> r == Err(NotAContainer)
    decreases |path| - i
  {
    if i == |path| then Ok(Str(version))
    else
      var key := path[i];
      assert WriteSels(path[i..])[0] == WriteSel(key);
      assert WriteSels(path[i..])[1..] == WriteSels(path[i + 1..]);
      if node.Table? || node.Array? then
        var sel := WriteSel(key);
        match Child(node, sel)
        case None => Err(MissingPath)
        case Some(c) =>
          match UpdateVersion(c, path, i + 1, version)
          case Err(e) => Err(e)
          case Ok(c') => Ok(Replace(node, sel, c'))
      else Err(NotAContainer)
  }

  /** `read_version`: the configured key split on `.` is the path. */
  function ReadVersion(doc: Node, key: string): (r: Result<string, LookupError>)
    requires ReadsString(doc, Split(key, '.'))
    ensures Resolve(doc, Split(key, '.')).Ok? <==> r.Ok?
    ensures r.Ok? ==> Resolve(doc, Split(key, '.')) == Ok(Str(r.value))
  {
    var path := Split(key, '.');
    assert path[0..] == path;
    GetVersion(doc, path, 0)
  }

  /**
   * `update_project` without the serialisation: the document with the
   * value at the configured key replaced by the version text.
   */
  function UpdateProject(doc: Node, key: string, version: string): (r: Result<Node, LookupError>)
    ensures r.Ok? <==> Put(doc, WriteSels(Split(key, '.')), Str(version)).Some?
    ensures r.Ok? ==> Put(doc, WriteSels(Split(key, '.')), Str(version)) == Some(r.value)
  {
    var path := Split(key, '.');
    assert path[0..] == path;
    UpdateVersion(doc, path, 0, version)
  }

  // ---------------------------------------------------------------------
  // Properties of the addressing algebra

  /** Replacing a child leaves every other child as it was. */
  lemma ChildReplaceOther(node: Node, s: Sel, t: Sel, c: Node)
    requires Child(node, s).Some?
    requires s != t
    ensures Child(Replace(node, s, c), t) == Child(node, t)
  {
  }

  /** After a put, the address holds the new leaf. */
  lemma {:induction false} GetAfterPut(node: Node, sels: seq<Sel>, leaf: Node)
    requires Put(node, sels, leaf).Some?
    ensures Get(Put(node, sels, leaf).value, sels) == Some(leaf)
    decreases |sels|
  {
    if |sels| > 0 {
      var c := Child(node, sels[0]).value;
      GetAfterPut(c, sels[1..], leaf);
    }
  }

  /** Two addresses diverge when they differ at some position both have. */
  predicate Diverge(p: seq<Sel>, q: seq<Sel>) {
    exists k :: 0 <= k < |p| && k < |q| && p[k] != q[k]
  }

  /** Frame: a put leaves every node at a diverging address as it was. */
  lemma {:induction false} PutFrame(node: Node, p: seq<Sel>, q: seq<Sel>, leaf: Node)
    requires Put(node, p, leaf).Some?
    requires Diverge(p, q)
    ensures Get(Put(node, p, leaf).value, q) == Get(node, q)
    decreases |p|
  {
    var k :| 0 <= k < |p| && k < |q| && p[k] != q[k];
    var c := Child(node, p[0]).value;
    var c' := Put(c, p[1..], leaf).value;
    var n' := Replace(node, p[0], c');
    assert Put(node, p, leaf).value == n';
    if p[0] != q[0] {
      ChildReplaceOther(node, p[0], q[0], c');
    } else {
      assert k > 0;
      assert p[1..][k - 1] != q[1..][k - 1];
      PutFrame(c, p[1..], q[1..], leaf);
    }
  }

  /**
   * Frame, shape part: along the address, every container keeps its kind,
   * its set of field names and its length; only the leaf is new.
   */
  lemma {:induction false} PutKeepsShape(node: Node, p: seq<Sel>, j: nat, leaf: Node)
    requires Put(node, p, leaf).Some?
    requires j < |p|
    ensures Get(node, p[..j]).Some? && Get(Put(node, p, leaf).value, p[..j]).Some?
    ensures SameShape(Get(node, p[..j]).value, Get(Put(node, p, leaf).value, p[..j]).value)
    decreases |p|
  {
    var c := Child(node, p[0]).value;
    var c' := Put(c, p[1..], leaf).value;
    if j > 0 {
      assert p[..j][1..] == p[1..][..j - 1];
      assert p[..j][0] == p[0];
      if j - 1 < |p[1..]| {
        PutKeepsShape(c, p[1..], j - 1, leaf);
      }
    } else {
      assert p[..j] == [];
    }
  }

  /** Same container kind, same field names, same length. */
  predicate SameShape(a: Node, b: Node) {
    match (a, b)
    case (Table(f), Table(g)) => f.Keys == g.Keys
    case (Array(x), Array(y)) => |x| == |y|
    case _ => false
  }

  // ---------------------------------------------------------------------
  // Properties of the two traversals

  /**
   * A successful write resolves every element the way reading would: a
   * numeric element at a table, or a name at an array, would have found
   * nothing. So reading the written path finds the new leaf.
   */
  lemma {:induction false} ResolveAfterPut(node: Node, path: seq<string>, leaf: Node)
    requires Put(node, WriteSels(path), leaf).Some?
    ensures Resolve(Put(node, WriteSels(path), leaf).value, path) == Ok(leaf)
    decreases |path|
  {
    if |path| > 0 {
      var sels := WriteSels(path);
      var s := sels[0];
      assert s == WriteSel(path[0]);
      assert sels[1..] == WriteSels(path[1..]);
      var c := Child(node, s).value;
      var c' := Put(c, sels[1..], leaf).value;
      var n' := Replace(node, s, c');
      assert Put(node, sels, leaf).value == n';
      assert ReadSel(n', path[0]) == Ok(s);
      ResolveAfterPut(c, path[1..], leaf);
    }
  }

  /** Read-after-write: a successful update is read back as the new version. */
  lemma ReadAfterWrite(node: Node, path: seq<string>, version: string)
    requires UpdateVersion(node, path, 0, version).Ok?
    ensures ReadsString(UpdateVersion(node, path, 0, version).value, path)
    ensures GetVersion(UpdateVersion(node, path, 0, version).value, path, 0) == Ok(version)
  {
    assert path[0..] == path;
    ResolveAfterPut(node, path, Str(version));
  }

  /**
   * The resolution asymmetry: at a table, an element that parses as a
   * number is taken as an index by the write, which finds nothing, so a
   * field with a numeric name cannot be updated.
   */
  lemma NumericFieldNotWritable(node: Node, path: seq<string>, i: nat, version: string)
    requires i < |path| && node.Table?
    requires ParseUsize(path[i]).Some?
    ensures UpdateVersion(node, path, i, version) == Err(MissingPath)
  {
  }

  /** Concretely: field "0" of a table is readable but not writable. */
  lemma NumericFieldExample()
    ensures ReadsString(Table(map["0" := Str("1.0.0")]), ["0"])
    ensures GetVersion(Table(map["0" := Str("1.0.0")]), ["0"], 0) == Ok("1.0.0")
    ensures UpdateVersion(Table(map["0" := Str("1.0.0")]), ["0"], 0, "1.0.1") == Err(MissingPath)
  {
    var doc := Table(map["0" := Str("1.0.0")]);
    assert ["0"][1..] == [];
    assert ["0"][0..] == ["0"];
    assert ParseUsize("0") == Some(0);
  }

  /** Re-applying the same update changes nothing further. */
  lemma UpdateIdempotent(node: Node, path: seq<string>, version: string)
    requires UpdateVersion(node, path, 0, version).Ok?
    ensures UpdateVersion(UpdateVersion(node, path, 0, version).value, path, 0, version)
         == UpdateVersion(node, path, 0, version)
  {
    assert path[0..] == path;
    var n' := UpdateVersion(node, path, 0, version).value;
    GetAfterPut(node, WriteSels(path), Str(version));
    PutSameLeaf(n', WriteSels(path), Str(version));
  }

  /** Putting the leaf that is already there gives back the same tree. */
  lemma {:induction false} PutSameLeaf(node: Node, sels: seq<Sel>, leaf: Node)
    requires Get(node, sels) == Some(leaf)
    ensures Put(node, sels, leaf) == Some(node)
    decreases |sels|
  {
    if |sels| > 0 {
      var c := Child(node, sels[0]).value;
      PutSameLeaf(c, sels[1..], leaf);
      match (node, sels[0])
      case (Table(fields), Name(name)) =>
        assert fields[name := c] == fields;
      case (Array(items), Index(k)) =>
        assert items[k := c] == items;
    }
  }

  /**
   * In a parsed document, no path selects an array item and then a
   * field: the item is a string, an array or another value, so a
   * non-numeric element after it fails, for reading and for writing.
   */
  lemma NoFieldBelowArrayItem(node: Node, path: seq<string>, version: string)
    requires ParserShaped(node) && node.Array?
    requires |path| >= 2 && ParseUsize(path[1]).None?
    ensures Resolve(node, path).Err?
    ensures UpdateVersion(node, path, 0, version).Err?
  {
    assert path[1..][0] == path[1];
    assert path[0..] == path;
    match ReadSel(node, path[0])
    case Err(_) =>
    case Ok(sel) =>
      match Child(node, sel)
      case None =>
      case Some(c) =>
        assert !c.Table?;
        assert Resolve(c, path[1..]).Err?;
    var ws := WriteSels(path);
    assert ws[1..][0] == Name(path[1]);
    match Child(node, ws[0])
    case None =>
    case Some(c) =>
      assert !c.Table?;
      assert Get(c, ws[1..]).None?;
  }

  /** A write of a string keeps a parsed document parsed. */
  lemma {:induction false} PutKeepsParserShaped(node: Node, sels: seq<Sel>, leaf: Node)
    requires ParserShaped(node) && ParserShaped(leaf) && !leaf.Table?
    requires Put(node, sels, leaf).Some?
    ensures ParserShaped(Put(node, sels, leaf).value)
    ensures |sels| > 0 ==> SameShape(node, Put(node, sels, leaf).value)
    decreases |sels|
  {
    if |sels| > 0 {
      var c := Child(node, sels[0]).value;
      var c' := Put(c, sels[1..], leaf).value;
      PutKeepsParserShaped(c, sels[1..], leaf);
      assert !c.Table? ==> !c'.Table?;
      var r := Replace(node, sels[0], c');
      match node
      case Table(fields) =>
        assert forall k :: k in r.fields ==> ParserShaped(r.fields[k]);
      case Array(items) =>
        assert forall i :: 0 <= i < |r.items| ==> !r.items[i].Table? && ParserShaped(r.items[i]);
    }
  }

  /** `update_version` keeps a parsed document parsed. */
  lemma UpdateKeepsParserShaped(node: Node, path: seq<string>, version: string)
    requires ParserShaped(node)
    requires UpdateVersion(node, path, 0, version).Ok?
    ensures ParserShaped(UpdateVersion(node, path, 0, version).value)
  {
    assert path[0..] == path;
    PutKeepsParserShaped(node, WriteSels(path), Str(version));
  }

  /**
   * The document `a = [{ v = "1.0.0" }]`: field "a" is an array whose one
   * item is an inline table, which the traversals see as `Other`.
   */
  function MixedDoc(): (doc: Node)
    ensures ParserShaped(doc)
  {
    Table(map["a" := Array([Other])])
  }

  /** The configured keys "a.0.v" and "a.5.v" split into three elements each. */
  lemma MixedKeys()
    ensures Split("a.0.v", '.') == ["a", "0", "v"]
    ensures Split("a.5.v", '.') == ["a", "5", "v"]
  {
    assert "a.0.v" == "a" + ['.'] + "0" + ['.'] + "v";
    assert "a.5.v" == "a" + ['.'] + "5" + ['.'] + "v";
    SplitThree("a", "0", "v", '.');
    SplitThree("a", "5", "v", '.');
  }

  /**
   * Table then array then inline table: "a.0.v" reaches the array item
   * and then fails, because the item is not a container the traversal
   * recognises; "a.5.v" fails earlier, as index 5 is out of bounds.
   */
  lemma MixedNestingRead()
    ensures Resolve(MixedDoc(), ["a", "0", "v"]) == Err(NotAContainer)
    ensures Resolve(MixedDoc(), ["a", "5", "v"]) == Err(MissingPath)
  {
    var arr := Array([Other]);
    assert ParseUsize("0") == Some(0) && ParseUsize("5") == Some(5);
    var path := ["a", "0", "v"];
    assert path[1..] == ["0", "v"] && path[1..][1..] == ["v"];
    assert Resolve(Other, ["v"]) == Err(NotAContainer);
    assert Resolve(arr, ["0", "v"]) == Err(NotAContainer);
    var bad := ["a", "5", "v"];
    assert bad[1..] == ["5", "v"];
    assert Resolve(arr, ["5", "v"]) == Err(MissingPath);
  }

  /** Writing "a.0.v" in that document fails the same way, leaving it as it was. */
  lemma MixedNestingWrite()
    ensures UpdateVersion(MixedDoc(), ["a", "0", "v"], 0, "1.0.1") == Err(NotAContainer)
  {
    var path := ["a", "0", "v"];
    assert ParseUsize("0") == Some(0);
    assert ParseUsize("a") == None by {
      assert !IsDigit('a');
    }
    assert UpdateVersion(Other, path, 2, "1.0.1") == Err(NotAContainer);
    assert UpdateVersion(Array([Other]), path, 1, "1.0.1") == Err(NotAContainer);
  }
}
