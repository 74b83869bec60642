/** Agent folders: the relaxed JSON reader for `agent.yaml` (comment and
    trailing-comma clean-up), the rule that turns one folder into an agent
    spec, discovery over the `agents` directory in sorted order, and the
    lookup of one agent by name.  The JSON decoder and the file system are
    parameters. */
module AgentMeta {
  import opened Wrappers
  import opened Text

  // ---------------------------------------------------------------------------
  // Values

  /** A decoded JSON value as the spec builder looks at it: a string, an
      object (with the text `str()` gives for it), or anything else (with
      its truth value and its `str()` text). */
  datatype MetaValue =
    | MStr(s: string)
    | MObj(fields: map<string, MetaValue>, text: string)
    | MOther(truthy: bool, text: string)

  /** Python truth value. */
  predicate Truthy(v: MetaValue) {
    match v
    case MStr(s) => s != []
    case MObj(fields, _) => |fields| > 0
    case MOther(t, _) => t
  }

  /** `str(v)` */
  function Str(v: MetaValue): string {
    match v
    case MStr(s) => s
    case MObj(_, text) => text
    case MOther(_, text) => text
  }

  /** Why reading `agent.yaml` failed: the file could not be read as UTF-8
      text, the cleaned text is not JSON, or it is JSON but not an object. */
  datatype ReadError = ReadFailed | DecodeError | NotAnObject

  // ---------------------------------------------------------------------------
  // _read_json_like

  /** One line cut at the first "//" and then at the first "#". */
  function StripComments(line: string): string {
    Before(Before(line, "//"), "#")
  }

  /** Every line of `text`, cut at its comments. */
  function CutLines(text: string): (lines: seq<string>)
    ensures |lines| == |SplitLines(text)|
  {
    var raw := SplitLines(text);
    seq(|raw|, k requires 0 <= k < |raw| => StripComments(raw[k]))
  }

  /** The trailing-comma clean-up, in the order the reader applies it. */
  function Uncomma(s: string): string {
    Replace(Replace(Replace(Replace(s, ",}", "}"), ", }", " }"), ",]", "]"), ", ]", " ]")
  }

  /** The text handed to the JSON decoder. */
  function Cleansed(text: string): string {
    Uncomma(Join(CutLines(text), "\n"))
  }

  /** `_read_json_like` on the file's text: a blank cleaned text is the
      empty object, a decoded object gives its fields, anything else fails. */
  function JsonLike(text: string, loads: string -> Option<MetaValue>): Result<map<string, MetaValue>, ReadError> {
    var c := Cleansed(text);
    if Strip(c) == [] then Ok(map[])
    else
      match loads(c)
      case None => Err(DecodeError)
      case Some(MObj(fields, _)) => Ok(fields)
      case Some(_) => Err(NotAnObject)
  }

  /** The reader: the line loop, the join, the four replacements and the
      decode. */
  method ReadJsonLike(text: string, loads: string -> Option<MetaValue>) returns (r: Result<map<string, MetaValue>, ReadError>)
    ensures r.Ok? == JsonLike(text, loads).Ok?
    ensures r.Ok? ==> r.value == JsonLike(text, loads).value
    ensures r.Err? ==> r.error == JsonLike(text, loads).error
  {
    var raw := SplitLines(text);
    var lines: seq<string> := [];
    for i := 0 to |raw|
      invariant |lines| == i
      invariant forall k :: 0 <= k < i ==> lines[k] == StripComments(raw[k])
    {
      var s := Before(raw[i], "//");
      s := Before(s, "#");
      lines := lines + [s];
    }
    assert lines == CutLines(text);
    var cleansed := Join(lines, "\n");
    cleansed := Replace(cleansed, ",}", "}");
    cleansed := Replace(cleansed, ", }", " }");
    cleansed := Replace(cleansed, ",]", "]");
    cleansed := Replace(cleansed, ", ]", " ]");
    assert cleansed == Cleansed(text);
    if Strip(cleansed) == [] {
      return Ok(map[]);
    }
    var data := loads(cleansed);
    if data.None? {
      return Err(DecodeError);
    }
    if !data.value.MObj? {
      return Err(NotAnObject);
    }
    return Ok(data.value.fields);
  }

  /** `s.split(sep, 1)[0]` holds no `sep`. */
  lemma BeforeLacks(s: string, sep: string)
    requires |sep| > 0
    ensures !Contains(Before(s, sep), sep)
  {
    SplitPiecesLackSeparator(s, sep);
    assert Split(s, sep)[0] == Before(s, sep);
  }

  /** `s.split(sep, 1)[0]` is a prefix of `s`. */
  lemma BeforeIsPrefix(s: string, sep: string)
    ensures StartsWith(s, Before(s, sep))
  {
  }

  /** A cut line is a prefix of the line and holds neither comment marker. */
  lemma CommentsCut(line: string)
    ensures StartsWith(line, StripComments(line))
    ensures !Contains(StripComments(line), "//") && !Contains(StripComments(line), "#")
  {
    var x := Before(line, "//");
    var y := Before(x, "#");
    BeforeLacks(line, "//");
    BeforeLacks(x, "#");
    BeforeIsPrefix(line, "//");
    BeforeIsPrefix(x, "#");
    assert x == y + x[|y|..];
    if Contains(y, "//") {
      ContainsExtend(y, x[|y|..], "//");
    }
  }

  /** A line without comment markers is kept whole. */
  lemma PlainLineKept(line: string)
    requires !Contains(line, "//") && !Contains(line, "#")
    ensures StripComments(line) == line
  {
  }

  /** The trailing-comma clean-up only ever deletes commas: every other
      character survives, in order. */
  lemma UncommaDeletesCommas(s: string)
    ensures Without(Uncomma(s), ',') == Without(s, ',')
  {
    assert Without(",}", ',') == Without("}", ',');
    assert Without(", }", ',') == Without(" }", ',');
    assert Without(",]", ',') == Without("]", ',');
    assert Without(", ]", ',') == Without(" ]", ',');
    var a := Replace(s, ",}", "}");
    var b := Replace(a, ", }", " }");
    var c := Replace(b, ",]", "]");
    ReplaceDeletesCommas(s, ",}", "}");
    ReplaceDeletesCommas(a, ", }", " }");
    ReplaceDeletesCommas(b, ",]", "]");
    ReplaceDeletesCommas(c, ", ]", " ]");
  }

  /** Text without commas is left alone by the clean-up. */
  lemma UncommaNoComma(s: string)
    requires ',' !in s
    ensures Uncomma(s) == s
  {
    LacksHead(s, ",}");
    ReplaceAbsent(s, ",}", "}");
    LacksHead(s, ", }");
    ReplaceAbsent(s, ", }", " }");
    LacksHead(s, ",]");
    ReplaceAbsent(s, ",]", "]");
    LacksHead(s, ", ]");
    ReplaceAbsent(s, ", ]", " ]");
  }

  /** Joining blank pieces with a blank separator gives blank text. */
  lemma {:induction false} JoinBlank(parts: seq<string>, sep: string)
    requires forall i :: 0 <= i < |sep| ==> IsSpace(sep[i])
    requires forall k, i :: 0 <= k < |parts| && 0 <= i < |parts[k]| ==> IsSpace(parts[k][i])
    ensures forall i :: 0 <= i < |Join(parts, sep)| ==> IsSpace(Join(parts, sep)[i])
  {
    if |parts| > 1 {
      JoinBlank(parts[1..], sep);
      var x := parts[0] + sep;
      var rest := Join(parts[1..], sep);
      assert Join(parts, sep) == x + rest;
      forall i | 0 <= i < |x| + |rest|
        ensures IsSpace((x + rest)[i])
      {
        if i < |parts[0]| {
          assert (x + rest)[i] == parts[0][i];
        } else if i < |x| {
          assert (x + rest)[i] == sep[i - |parts[0]|];
        } else {
          assert (x + rest)[i] == rest[i - |x|];
        }
      }
    }
  }

  /** A file of comments and blank lines reads as the empty object, whatever
      the decoder does. */
  lemma CommentsOnlyIsEmpty(text: string, loads: string -> Option<MetaValue>)
    requires forall k, i :: 0 <= k < |SplitLines(text)| && 0 <= i < |StripComments(SplitLines(text)[k])|
                            ==> IsSpace(StripComments(SplitLines(text)[k])[i])
    ensures JsonLike(text, loads).Ok? && JsonLike(text, loads).value == map[]
  {
    var lines := CutLines(text);
    assert forall k :: 0 <= k < |lines| ==> lines[k] == StripComments(SplitLines(text)[k]);
    JoinBlank(lines, "\n");
    var j := Join(lines, "\n");
    assert forall i :: 0 <= i < |j| ==> j[i] != ',';
    UncommaNoComma(j);
    StripAllSpace(j);
  }

  /** A read that succeeds with fields came from a decoded object, or from a
      blank text with no fields at all; each failure names its cause. */
  lemma JsonLikeOutcome(text: string, loads: string -> Option<MetaValue>)
    ensures JsonLike(text, loads).Ok? <==>
              Strip(Cleansed(text)) == [] || (loads(Cleansed(text)).Some? && loads(Cleansed(text)).value.MObj?)
    ensures JsonLike(text, loads).Ok? && Strip(Cleansed(text)) != [] ==>
              JsonLike(text, loads).value == loads(Cleansed(text)).value.fields
    ensures JsonLike(text, loads).Err? && JsonLike(text, loads).error == DecodeError <==>
              Strip(Cleansed(text)) != [] && loads(Cleansed(text)).None?
    ensures JsonLike(text, loads).Err? && JsonLike(text, loads).error == NotAnObject <==>
              Strip(Cleansed(text)) != [] && loads(Cleansed(text)).Some? && !loads(Cleansed(text)).value.MObj?
  {
  }

  // ---------------------------------------------------------------------------
  // _spec_from_dir

  /** What the file system shows of `agent.yaml`: absent, present but not
      readable as text, or its text. */
  datatype Yaml = NoYaml | Unreadable | YamlText(text: string)

  /** One candidate agent folder. */
  datatype Folder = Folder(isDir: bool, yaml: Yaml, hasPy: bool, hasBlob: bool)

  /** `AgentSpec` */
  datatype AgentSpec = AgentSpec(name: string, display: string, dir: string, blob: Option<string>,
                                 defaults: map<string, MetaValue>)

  /** The `SystemExit`s of the agent lookup. */
  datatype Failure =
    | BadMeta(cause: ReadError)
    | BadDefaults
    | EmptyName
    | Unknown(name: string)

  /** `a / b` on paths. */
  function Path(a: string, b: string): string {
    a + "/" + b
  }

  /** `meta.get("display") or meta.get("name") or name`, then `str()`. */
  function Display(meta: map<string, MetaValue>, name: string): string {
    if "display" in meta && Truthy(meta["display"]) then Str(meta["display"])
    else if "name" in meta && Truthy(meta["name"]) then Str(meta["name"])
    else name
  }

  /** The `defaults` object, which must be an object when present. */
  function Defaults(meta: map<string, MetaValue>): (r: Result<map<string, MetaValue>, Failure>)
    ensures r.Err? <==> "defaults" in meta && !meta["defaults"].MObj?
    ensures r.Err? ==> r.error == BadDefaults
    ensures r.Ok? && "defaults" in meta ==> r.value == meta["defaults"].fields
    ensures r.Ok? && "defaults" !in meta ==> r.value == map[]
  {
    if "defaults" !in meta then Ok(map[])
    else
      match meta["defaults"]
      case MObj(fields, _) => Ok(fields)
      case _ => Err(BadDefaults)
  }

  /** The metadata of a folder that has an `agent.yaml`. */
  function Meta(y: Yaml, loads: string -> Option<MetaValue>): (r: Result<map<string, MetaValue>, Failure>)
    requires !y.NoYaml?
    ensures r.Err? ==> r.error.BadMeta?
    ensures y.Unreadable? ==> r.Err? && r.error == BadMeta(ReadFailed)
  {
    match y
    case Unreadable => Err(BadMeta(ReadFailed))
    case YamlText(text) =>
      match JsonLike(text, loads)
      case Ok(m) => Ok(m)
      case Err(e) => Err(BadMeta(e))
  }

  /** `_spec_from_dir`: `None` for a non-folder or a folder with neither
      `agent.yaml` nor `agent.py`; an agent named after its folder
      otherwise. */
  function SpecFromDir(dir: string, name: string, f: Folder, loads: string -> Option<MetaValue>): (r: Result<Option<AgentSpec>, Failure>)
    ensures r.Ok? && r.value.None? <==> !f.isDir || (f.yaml.NoYaml? && !f.hasPy)
    ensures r.Err? ==> f.isDir && !f.yaml.NoYaml?
    ensures r.Ok? && r.value.Some? ==>
              r.value.value.name == name && r.value.value.dir == dir
              && (r.value.value.blob.Some? <==> f.hasBlob)
              && (f.hasBlob ==> r.value.value.blob.value == Path(dir, "model.blob"))
    ensures r.Ok? && r.value.Some? && f.yaml.NoYaml? ==>
              r.value.value.display == name && r.value.value.defaults == map[]
  {
    if !f.isDir then Ok(None)
    else
      var blob := if f.hasBlob then Some(Path(dir, "model.blob")) else None;
      if f.yaml.NoYaml? then
        if !f.hasPy then Ok(None) else Ok(Some(AgentSpec(name, name, dir, blob, map[])))
      else
        var meta :- Meta(f.yaml, loads);
        var display := Display(meta, name);
        var defaults :- Defaults(meta);
        Ok(Some(AgentSpec(name, display, dir, blob, defaults)))
  }

  /** A truthy "display" wins over "name", which wins over the folder name;
      when neither is truthy the folder name is shown. */
  lemma DisplayPrecedence(meta: map<string, MetaValue>, name: string)
    ensures "display" in meta && Truthy(meta["display"]) ==> Display(meta, name) == Str(meta["display"])
    ensures ("display" !in meta || !Truthy(meta["display"])) && "name" in meta && Truthy(meta["name"])
            ==> Display(meta, name) == Str(meta["name"])
    ensures ("display" !in meta || !Truthy(meta["display"])) && ("name" !in meta || !Truthy(meta["name"]))
            ==> Display(meta, name) == name
  {
  }

  /** Every value whose `str()` is never empty (true of every JSON value
      other than the empty string). */
  predicate Shown(v: MetaValue) {
    !v.MStr? ==> v.text != []
  }

  /** The display name is never empty when the folder name is not. */
  lemma DisplayNonEmpty(meta: map<string, MetaValue>, name: string)
    requires name != []
    requires forall k | k in meta :: Shown(meta[k])
    ensures Display(meta, name) != []
  {
  }

  /** With an `agent.yaml`, the spec carries what the file says: its display
      rule and its `defaults` object. */
  lemma SpecFromYaml(dir: string, name: string, f: Folder, loads: string -> Option<MetaValue>)
    requires f.isDir && f.yaml.YamlText?
    requires JsonLike(f.yaml.text, loads).Ok?
    ensures SpecFromDir(dir, name, f, loads).Ok? <==> Defaults(JsonLike(f.yaml.text, loads).value).Ok?
    ensures SpecFromDir(dir, name, f, loads).Ok? ==>
              SpecFromDir(dir, name, f, loads).value.Some?
              && SpecFromDir(dir, name, f, loads).value.value.display == Display(JsonLike(f.yaml.text, loads).value, name)
              && SpecFromDir(dir, name, f, loads).value.value.defaults == Defaults(JsonLike(f.yaml.text, loads).value).value
    ensures SpecFromDir(dir, name, f, loads).Err? ==> SpecFromDir(dir, name, f, loads).error == BadDefaults
  {
  }

  /** A failed read of `agent.yaml` stops the lookup with its cause. */
  lemma SpecFromBadYaml(dir: string, name: string, f: Folder, loads: string -> Option<MetaValue>)
    requires f.isDir && f.yaml.YamlText?
    requires JsonLike(f.yaml.text, loads).Err?
    ensures SpecFromDir(dir, name, f, loads).Err?
    ensures SpecFromDir(dir, name, f, loads).error == BadMeta(JsonLike(f.yaml.text, loads).error)
  {
  }

  // ---------------------------------------------------------------------------
  // sorted(): Python's string order

  /** `a < b` on Python strings: by code point, a proper prefix first. */
  predicate Below(a: string, b: string)
    decreases |a|
  {
    if a == [] then b != []
    else b != [] && (a[0] < b[0] || (a[0] == b[0] && Below(a[1..], b[1..])))
  }

  lemma {:induction false} BelowAsymmetric(a: string, b: string)
    ensures Below(a, b) ==> !Below(b, a)
    decreases |a|
  {
    if a != [] && b != [] && a[0] == b[0] {
      BelowAsymmetric(a[1..], b[1..]);
    }
  }

  lemma {:induction false} BelowTotal(a: string, b: string)
    requires a != b
    ensures Below(a, b) || Below(b, a)
    decreases |a|
  {
    if a != [] && b != [] && a[0] == b[0] {
      assert a == [a[0]] + a[1..] && b == [b[0]] + b[1..];
      BelowTotal(a[1..], b[1..]);
    }
  }

  /** Each name is at most the next one. */
  predicate Ascending(s: seq<string>) {
    forall i :: 0 < i < |s| ==> !Below(s[i], s[i - 1])
  }

  function Insert(x: string, s: seq<string>): (r: seq<string>)
    ensures multiset(r) == multiset(s) + multiset{x}
    ensures r[0] == x || (s != [] && r[0] == s[0])
  {
    if s == [] || !Below(s[0], x) then [x] + s
    else
      assert s == [s[0]] + s[1..];
      [s[0]] + Insert(x, s[1..])
  }

  /** `sorted(names)` (an insertion sort: the order is what matters). */
  function Sort(names: seq<string>): (r: seq<string>)
    ensures multiset(r) == multiset(names)
  {
    if names == [] then []
    else
      assert names == [names[0]] + names[1..];
      Insert(names[0], Sort(names[1..]))
  }

  lemma {:induction false} InsertAscending(x: string, s: seq<string>)
    requires Ascending(s)
    ensures Ascending(Insert(x, s))
  {
    if s != [] && Below(s[0], x) {
      InsertAscending(x, s[1..]);
      BelowAsymmetric(s[0], x);
      var r := Insert(x, s);
      var t := Insert(x, s[1..]);
      assert r == [s[0]] + t;
      assert t[0] == x || t[0] == s[1];
      forall i | 0 < i < |r|
        ensures !Below(r[i], r[i - 1])
      {
        if i > 1 {
          assert r[i] == t[i - 1] && r[i - 1] == t[i - 2];
        }
      }
    }
  }

  /** `sorted` returns the same names, in ascending order. */
  lemma {:induction false} SortAscending(names: seq<string>)
    ensures Ascending(Sort(names))
    ensures multiset(Sort(names)) == multiset(names)
  {
    if names != [] {
      SortAscending(names[1..]);
      InsertAscending(names[0], Sort(names[1..]));
    }
  }

  /** With distinct names, every name comes before every later one. */
  lemma {:induction false} AscendingStrict(s: seq<string>, i: nat, j: nat)
    requires Ascending(s) && i < j < |s|
    requires forall a, b :: 0 <= a < b < |s| ==> s[a] != s[b]
    ensures Below(s[i], s[j])
    decreases j - i
  {
    BelowTotal(s[j - 1], s[j]);
    if j - 1 > i {
      AscendingStrict(s, i, j - 1);
      BelowTrans(s[i], s[j - 1], s[j]);
    } else {
      BelowTotal(s[i], s[j]);
    }
  }

  lemma {:induction false} BelowTrans(a: string, b: string, c: string)
    requires Below(a, b) && Below(b, c)
    ensures Below(a, c)
    decreases |a|
  {
    if a != [] && a[0] == b[0] && b[0] == c[0] {
      BelowTrans(a[1..], b[1..], c[1..]);
    }
  }

  // ---------------------------------------------------------------------------
  // discover_agents

  /** The specs found among `names`, visited in order; a later folder of the
      same name replaces an earlier entry. */
  function Discovered(base: string, names: seq<string>, probe: string -> Folder, loads: string -> Option<MetaValue>)
    : Result<map<string, AgentSpec>, Failure>
    decreases |names|
  {
    if names == [] then Ok(map[])
    else
      var specs :- Discovered(base, names[..|names| - 1], probe, loads);
      var n := names[|names| - 1];
      if !probe(n).isDir then Ok(specs)
      else
        var spec :- SpecFromDir(Path(base, n), n, probe(n), loads);
        if spec.Some? then Ok(specs[spec.value.name := spec.value]) else Ok(specs)
  }

  /** `discover_agents`: nothing when the `agents` directory is missing,
      otherwise its entries in sorted order. */
  function DiscoverOf(baseExists: bool, base: string, listing: seq<string>, probe: string -> Folder,
                      loads: string -> Option<MetaValue>): Result<map<string, AgentSpec>, Failure>
  {
    if !baseExists then Ok(map[]) else Discovered(base, Sort(listing), probe, loads)
  }

  /** A folder that fails stops discovery with its failure. */
  lemma {:induction false} DiscoveredStop(base: string, names: seq<string>, probe: string -> Folder,
                                          loads: string -> Option<MetaValue>, j: nat)
    requires 0 < j <= |names| && Discovered(base, names[..j], probe, loads).Err?
    ensures Discovered(base, names, probe, loads).Err?
    ensures Discovered(base, names, probe, loads).error == Discovered(base, names[..j], probe, loads).error
    decreases |names|
  {
    if j < |names| {
      var n := |names| - 1;
      assert names[..n][..j] == names[..j];
      DiscoveredStop(base, names[..n], probe, loads, j);
    } else {
      assert names[..j] == names;
    }
  }

  /** The loop of `discover_agents` over the sorted entries. */
  method DiscoverAgents(baseExists: bool, base: string, listing: seq<string>, probe: string -> Folder,
                        loads: string -> Option<MetaValue>) returns (r: Result<map<string, AgentSpec>, Failure>)
    ensures r.Ok? == DiscoverOf(baseExists, base, listing, probe, loads).Ok?
    ensures r.Ok? ==> r.value == DiscoverOf(baseExists, base, listing, probe, loads).value
    ensures r.Err? ==> r.error == DiscoverOf(baseExists, base, listing, probe, loads).error
  {
    if !baseExists {
      return Ok(map[]);
    }
    var names := Sort(listing);
    var specs: map<string, AgentSpec> := map[];
    for i := 0 to |names|
      invariant Discovered(base, names[..i], probe, loads).Ok?
      invariant Discovered(base, names[..i], probe, loads).value == specs
    {
      assert names[..i + 1][..i] == names[..i];
      var child := names[i];
      var f := probe(child);
      if f.isDir {
        var spec := SpecFromDir(Path(base, child), child, f, loads);
        if spec.Err? {
          DiscoveredStop(base, names, probe, loads, i + 1);
          return Err(spec.error);
        }
        if spec.value.Some? {
          specs := specs[spec.value.value.name := spec.value.value];
        }
      }
    }
    assert names[..|names|] == names;
    return Ok(specs);
  }

  /** What discovery found is keyed by folder name: a name is a key exactly
      when it was visited, is a folder and yields a spec, and its entry is
      that spec. */
  lemma {:induction false} DiscoveredAt(base: string, names: seq<string>, probe: string -> Folder,
                                        loads: string -> Option<MetaValue>, n: string)
    requires Discovered(base, names, probe, loads).Ok?
    ensures n in Discovered(base, names, probe, loads).value <==>
              n in names && probe(n).isDir && SpecFromDir(Path(base, n), n, probe(n), loads).Ok?
              && SpecFromDir(Path(base, n), n, probe(n), loads).value.Some?
    ensures n in Discovered(base, names, probe, loads).value ==>
              Discovered(base, names, probe, loads).value[n] == SpecFromDir(Path(base, n), n, probe(n), loads).value.value
    decreases |names|
  {
    if names != [] {
      var m := |names| - 1;
      DiscoveredAt(base, names[..m], probe, loads, n);
      if n == names[m] && probe(n).isDir {
        var spec := SpecFromDir(Path(base, n), n, probe(n), loads);
        assert spec.Ok?;
      }
      assert names == names[..m] + [names[m]];
      assert n in names <==> n in names[..m] || n == names[m];
      if n != names[m] && probe(names[m]).isDir {
        var spec := SpecFromDir(Path(base, names[m]), names[m], probe(names[m]), loads);
        assert spec.Ok?;
      }
    }
  }

  // ---------------------------------------------------------------------------
  // resolve_agent

  /** `resolve_agent`: a blank name is refused; otherwise the folder of that
      name must yield a spec. */
  function ResolveAgent(base: string, name: string, probe: string -> Folder, loads: string -> Option<MetaValue>)
    : (r: Result<AgentSpec, Failure>)
    ensures r.Err? && r.error == EmptyName <==> Strip(name) == []
    ensures r.Ok? ==> r.value.name == name && r.value.dir == Path(base, name)
  {
    if Strip(name) == [] then Err(EmptyName)
    else
      var spec :- SpecFromDir(Path(base, name), name, probe(name), loads);
      if spec.None? then Err(Unknown(name)) else Ok(spec.value)
  }

  /** Looking up one listed agent by name agrees with discovering them all. */
  lemma ResolveAgreesWithDiscover(base: string, listing: seq<string>, probe: string -> Folder,
                                  loads: string -> Option<MetaValue>, name: string)
    requires name in listing && Strip(name) != []
    requires DiscoverOf(true, base, listing, probe, loads).Ok?
    ensures ResolveAgent(base, name, probe, loads).Ok? <==> name in DiscoverOf(true, base, listing, probe, loads).value
    ensures ResolveAgent(base, name, probe, loads).Ok? ==>
              ResolveAgent(base, name, probe, loads).value == DiscoverOf(true, base, listing, probe, loads).value[name]
  {
    var names := Sort(listing);
    assert name in multiset(names);
    DiscoveredAt(base, names, probe, loads, name);
    if probe(name).isDir {
      DiscoveredOk(base, names, probe, loads, name);
    }
  }

  /** A visited folder of a discovery that succeeded yields a spec or
      nothing, never a failure. */
  lemma {:induction false} DiscoveredOk(base: string, names: seq<string>, probe: string -> Folder,
                                        loads: string -> Option<MetaValue>, n: string)
    requires Discovered(base, names, probe, loads).Ok? && n in names && probe(n).isDir
    ensures SpecFromDir(Path(base, n), n, probe(n), loads).Ok?
    decreases |names|
  {
    var m := |names| - 1;
    assert names == names[..m] + [names[m]];
    if n != names[m] {
      DiscoveredOk(base, names[..m], probe, loads, n);
    }
  }

  /** A name that is not a folder is unknown. */
  lemma ResolveMissing(base: string, name: string, probe: string -> Folder, loads: string -> Option<MetaValue>)
    requires Strip(name) != [] && !probe(name).isDir
    ensures ResolveAgent(base, name, probe, loads).Err?
    ensures ResolveAgent(base, name, probe, loads).error == Unknown(name)
  {
  }
}
